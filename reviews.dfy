/** The decoded shape of the App Store customer-review feed and the helpers
    that turn one review entry into a tab-separated row
    (ios_response_structure.go). */
module Reviews {
  import opened Strings

  /** Every text value of the feed is a JSON object `{"label": ...}`. */
  datatype Label = Label(text: string) {
    function String(): string {
      text
    }
  }

  datatype Attributes = Attributes(href: string, rel: string, contentType: string)

  /** `Author` embeds a `Label` and adds the author's name and profile link. */
  datatype Author = Author(text: Label, name: Label, uri: Label)

  datatype Content = Content(attributes: Attributes, text: Label)

  const EmptyLabel := Label("")
  const EmptyAttributes := Attributes("", "", "")

  /** One customer review. The `im:contentType` and `link` objects hold
      only attributes; `im:version` is decoded through the vote-sum type, which
      is just another label. */
  datatype Entry = Entry(
    author: Author,
    content: Content,
    id: Label,
    imContentType: Attributes,
    imRating: Label,
    imVersion: Label,
    imVoteCount: Label,
    imVoteSum: Label,
    link: Attributes,
    title: Label)
  {
    /** The blanked entry that `Filter` returns: every label is empty. */
    static const Zero: Entry := Entry(
      Author(EmptyLabel, EmptyLabel, EmptyLabel), Content(EmptyAttributes, EmptyLabel),
      EmptyLabel, EmptyAttributes, EmptyLabel, EmptyLabel, EmptyLabel, EmptyLabel,
      EmptyAttributes, EmptyLabel)

    /** Blanks the entry as soon as one condition holds of it; with no
        condition holding (or none given) the entry comes back unchanged. */
    function Filter(conditions: seq<Entry -> bool>): (r: Entry)
      ensures (exists k :: 0 <= k < |conditions| && conditions[k](this)) ==> r == Zero
      ensures (forall k :: 0 <= k < |conditions| ==> !conditions[k](this)) ==> r == this
    {
      if conditions == [] then this
      else if conditions[0](this) then Zero
      else Filter(conditions[1..])
    }

    /** The review text with surrounding white space removed. */
    function TrimmedContent(): string {
      TrimSpace(content.text.String())
    }

    /** The row `review_id, title, author, author_url, version, rating,
        review, vote_count`, each field trimmed and the review with its line
        breaks and tabs turned into spaces; no row (`nil`, here the empty
        sequence) when the review text is blank. */
    function QuickRow(): (row: seq<string>)
      ensures row == [] <==> TrimmedContent() == []
      ensures row != [] ==> |row| == 8
      ensures row != [] ==> row == [
        TrimSpace(id.String()), TrimSpace(title.String()), TrimSpace(author.name.String()),
        TrimSpace(author.uri.String()), TrimSpace(imVersion.String()), TrimSpace(imRating.String()),
        CleanReview(TrimmedContent()), TrimSpace(imVoteCount.String())]
      ensures row != [] ==> '\n' !in row[6] && '\t' !in row[6]
    {
      if |TrimSpace(content.text.String())| == 0 then []
      else
        var review := CleanReview(TrimSpace(content.text.String()));
        [
          TrimSpace(id.String()),
          TrimSpace(title.String()),
          TrimSpace(author.name.String()),
          TrimSpace(author.uri.String()),
          TrimSpace(imVersion.String()),
          TrimSpace(imRating.String()),
          review,
          TrimSpace(imVoteCount.String())
        ]
    }

    /** The column names of `QuickRow`, the same for every entry. */
    static function QuickHeaders(): (headers: seq<string>)
      ensures |headers| == 8
    {
      ["review_id", "title", "author", "author_url", "version", "rating", "review", "vote_count"]
    }
  }

  /** The review clean-up of `QuickRow`: each line break, then each tab,
      becomes a space. */
  function CleanReview(t: string): (review: string)
    ensures |review| == |t|
    ensures '\n' !in review && '\t' !in review
    ensures forall i :: 0 <= i < |t| ==> review[i] == (if t[i] == '\n' || t[i] == '\t' then ' ' else t[i])
  {
    var review := ReplaceChar(t, '\n', ' ');
    ReplaceChar(review, '\t', ' ')
  }

  /** A blanked entry has no row, so the tools that print rows skip it. */
  lemma FilteredOutHasNoRow(e: Entry, conditions: seq<Entry -> bool>, k: nat)
    requires k < |conditions| && conditions[k](e)
    ensures e.Filter(conditions).QuickRow() == []
  {
    assert Entry.Zero.TrimmedContent() == [];
  }

  /** A row never holds a tab or a line break in its review field, so when
      the other fields are tab-free as well the tab-joined row splits back
      into exactly its eight fields. */
  lemma QuickRowSplitsBack(e: Entry)
    requires e.QuickRow() != []
    requires forall k :: 0 <= k < 8 && k != 6 ==> '\t' !in e.QuickRow()[k]
    ensures Split(Join(e.QuickRow(), "\t"), '\t') == e.QuickRow()
  {
    SplitJoin(e.QuickRow(), '\t');
  }

  /** The header line of the TSV export splits back into the eight column
      names. */
  lemma HeadersSplitBack()
    ensures Split(Join(Entry.QuickHeaders(), "\t"), '\t') == Entry.QuickHeaders()
  {
    SplitJoin(Entry.QuickHeaders(), '\t');
  }

  /** The decoded body of one feed page. */
  datatype Feed = Feed(
    author: Author,
    entry: seq<Entry>,
    icon: Label,
    id: Label,
    link: seq<Attributes>,
    rights: Label,
    title: Label,
    updated: Label)

  datatype IOSReviews = IOSReviews(feed: Feed)

  /** The entries of all pages, page by page, each page in its own order:
      the order in which both command-line tools visit them. */
  function Entries(pages: seq<IOSReviews>): (es: seq<Entry>)
    ensures pages == [] ==> es == []
  {
    if pages == [] then [] else Entries(pages[..|pages| - 1]) + pages[|pages| - 1].feed.entry
  }

  /** Taking one more element of `b` extends `a + b[..k]` by that element;
      the step of the loops that visit `Entries(pages)` entry by entry. */
  lemma AppendNext<T>(a: seq<T>, b: seq<T>, k: nat)
    requires k < |b|
    ensures a + b[..k + 1] == (a + b[..k]) + [b[k]]
  {
    assert b[..k + 1] == b[..k] + [b[k]];
  }
}
