/** The tab-separated export tool (cmd/tsv-maker/main.go): one header line,
    then one row per review that has text and survives the rating filter. */
module TsvMaker {
  import opened Wrappers
  import opened Strings
  import opened Strconv
  import opened Reviews

  /** `reviewGreaterThan(e, n)`: a condition that drops reviews rated above
      `n`. The rating is read from `e` once; the condition ignores the entry
      it is later applied to. A rating that does not parse, `n == 0` and any
      `n` outside 1..4 all give a condition that never holds. */
  function ReviewGreaterThan(e: Entry, n: int): (cond: Entry -> bool)
    ensures Atoi(e.imRating.String()).Failure? ==> forall x :: !cond(x)
    ensures !(1 <= n <= 4) ==> forall x :: !cond(x)
    ensures Atoi(e.imRating.String()).Success? && 1 <= n <= 4 ==>
      forall x :: cond(x) <==> Atoi(e.imRating.String()).value > n
    ensures forall x, y :: cond(x) == cond(y)
  {
    match Atoi(e.imRating.String())
    case Failure(_) => x => false
    case Success(i) =>
      if n == 0 then x => false
      else if n == 1 then x => i > 1
      else if n == 2 then x => i > 2
      else if n == 3 then x => i > 3
      else if n == 4 then x => i > 4
      else x => false
  }

  /** The entry as `main` keeps it: blanked when its rating is above `n`. */
  function Filtered(e: Entry, n: int): Entry {
    e.Filter([ReviewGreaterThan(e, n)])
  }

  /** The line `main` writes for one entry: the tab-joined row and a line
      break, or nothing when the (filtered) entry has no row. */
  function RowLine(e: Entry, n: int): string {
    var row := Filtered(e, n).QuickRow();
    if |row| > 0 then Join(row, "\t") + "\n" else ""
  }

  /** With `n` in 1..4 a review rated above `n` is dropped; a review rated
      at most `n`, or whose rating does not parse, keeps the row it has. */
  lemma RatingFilter(e: Entry, n: int)
    ensures (1 <= n <= 4 && Atoi(e.imRating.String()).Success? && Atoi(e.imRating.String()).value > n)
      ==> RowLine(e, n) == ""
    ensures !(1 <= n <= 4 && Atoi(e.imRating.String()).Success? && Atoi(e.imRating.String()).value > n)
      ==> RowLine(e, n) == (if e.QuickRow() != [] then Join(e.QuickRow(), "\t") + "\n" else "")
  {
    var cond := ReviewGreaterThan(e, n);
    if cond(e) {
      FilteredOutHasNoRow(e, [cond], 0);
    }
  }

  /** The rows of `entries`, in order. */
  function Rows(entries: seq<Entry>, n: int): string {
    if entries == [] then ""
    else Rows(entries[..|entries| - 1], n) + RowLine(entries[|entries| - 1], n)
  }

  /** One more entry adds its own line after the lines already written. */
  lemma RowsSnoc(entries: seq<Entry>, e: Entry, n: int)
    ensures Rows(entries + [e], n) == Rows(entries, n) + RowLine(e, n)
  {
    assert (entries + [e])[..|entries|] == entries;
  }

  function HeaderLine(): string {
    Join(Entry.QuickHeaders(), "\t") + "\n"
  }

  /** What the tool prints for the fetched pages: the header line if there
      is at least one entry, then the buffered rows, then `Println`'s line
      break. */
  function Output(pages: seq<IOSReviews>, n: int): string {
    var entries := Entries(pages);
    (if entries != [] then HeaderLine() else "") + Rows(entries, n) + "\n"
  }

  /** `sync.Once`: the action runs on the first call only. */
  class Once {
    var done: bool

    constructor ()
      ensures !done
    {
      done := false;
    }
  }

  /** `printHeadersOnce`: prints the header line on the first call and
      nothing on later ones. */
  method PrintHeadersOnce(once: Once, e: Entry, stdout: string) returns (out: string)
    modifies once
    ensures once.done
    ensures out == if old(once.done) then stdout else stdout + HeaderLine()
  {
    out := stdout;
    if !once.done {
      once.done := true;
      out := out + Join(e.QuickHeaders(), "\t") + "\n";
    }
  }

  /** The body of `main`'s inner loop after the header: filter the entry by
      its rating and append its row, if it has one, to the buffer. */
  method WriteRow(buf: string, entry: Entry, reviewFilter: int) returns (out: string)
    ensures out == buf + RowLine(entry, reviewFilter)
  {
    var entry := entry.Filter([ReviewGreaterThan(entry, reviewFilter)]);
    out := buf;
    if |entry.QuickRow()| > 0 {
      out := out + Join(entry.QuickRow(), "\t") + "\n";
    }
  }

  /** `main`'s inner loop over the entries of one page: prints the header
      once, then buffers the row of each entry; `seen` are the entries of
      the earlier pages. */
  method WritePage(once: Once, stdout: string, buf: string, entries: seq<Entry>, reviewFilter: int, ghost seen: seq<Entry>)
    returns (stdout': string, buf': string)
    requires once.done <==> seen != []
    requires stdout == if once.done then HeaderLine() else ""
    requires buf == Rows(seen, reviewFilter)
    modifies once
    ensures once.done <==> seen + entries != []
    ensures stdout' == if once.done then HeaderLine() else ""
    ensures buf' == Rows(seen + entries, reviewFilter)
  {
    stdout', buf' := stdout, buf;
    assert seen + entries[..0] == seen;
    for k := 0 to |entries|
      invariant once.done <==> seen + entries[..k] != []
      invariant stdout' == if once.done then HeaderLine() else ""
      invariant buf' == Rows(seen + entries[..k], reviewFilter)
    {
      AppendNext(seen, entries, k);
      RowsSnoc(seen + entries[..k], entries[k], reviewFilter);
      var entry := entries[k];
      stdout' := PrintHeadersOnce(once, entry, stdout');
      buf' := WriteRow(buf', entry, reviewFilter);
    }
    assert entries[..|entries|] == entries;
  }

  /** `main` after flag parsing: walks the pages and their entries, prints
      the header once, buffers the row lines and prints the buffer. */
  method MakeTsv(pages: seq<IOSReviews>, reviewFilter: int) returns (stdout: string)
    ensures stdout == Output(pages, reviewFilter)
  {
    var once := new Once();
    var buf := "";
    stdout := "";
    for p := 0 to |pages|
      invariant once.done <==> Entries(pages[..p]) != []
      invariant stdout == if once.done then HeaderLine() else ""
      invariant buf == Rows(Entries(pages[..p]), reviewFilter)
    {
      assert pages[..p + 1][..p] == pages[..p];
      stdout, buf := WritePage(once, stdout, buf, pages[p].feed.entry, reviewFilter, Entries(pages[..p]));
    }
    assert pages[..|pages|] == pages;
    stdout := stdout + buf + "\n";
  }
}
