/** The parts of Go's `strings` package that the review tools rely on, over
    strings seen as sequences of Unicode code points. */
module Strings {

  /** Go's `unicode.IsSpace`: the ASCII spaces `\t \n \v \f \r ' '`, U+0085,
      U+00A0 and the other code points with the Unicode White_Space property. */
  predicate IsSpace(c: char) {
    var n := c as int;
    || 9 <= n <= 13 || n == 32 || n == 0x85 || n == 0xA0 || n == 0x1680
    || 0x2000 <= n <= 0x200A || n == 0x2028 || n == 0x2029 || n == 0x202F
    || n == 0x205F || n == 0x3000
  }

  /** The leading-space half of `strings.TrimSpace`. */
  function TrimLeft(s: string): (r: string)
    ensures |r| <= |s|
    ensures r != [] ==> r[0] == s[|s| - |r|] && !IsSpace(r[0])
    ensures forall i :: 0 <= i < |s| - |r| ==> IsSpace(s[i])
  {
    if s != [] && IsSpace(s[0]) then TrimLeft(s[1..]) else s
  }

  /** The trailing-space half of `strings.TrimSpace`. */
  function TrimRight(s: string): (r: string)
    ensures |r| <= |s|
    ensures r != [] ==> r[0] == s[0] && !IsSpace(r[|r| - 1])
    ensures forall i :: |r| <= i < |s| ==> IsSpace(s[i])
  {
    if s != [] && IsSpace(s[|s| - 1]) then TrimRight(s[..|s| - 1]) else s
  }

  /** `strings.TrimSpace`: drops leading and trailing white space. The result
      is empty exactly when `s` is all white space, and otherwise neither
      starts nor ends with white space. */
  function TrimSpace(s: string): (r: string)
    ensures |r| <= |s|
    ensures r == [] <==> forall i :: 0 <= i < |s| ==> IsSpace(s[i])
    ensures r != [] ==> !IsSpace(r[0]) && !IsSpace(r[|r| - 1])
  {
    TrimRight(TrimLeft(s))
  }

  lemma {:induction false} TrimLeftIsSuffix(s: string)
    ensures TrimLeft(s) == s[|s| - |TrimLeft(s)|..]
  {
    if s != [] && IsSpace(s[0]) {
      TrimLeftIsSuffix(s[1..]);
    }
  }

  lemma {:induction false} TrimRightIsPrefix(s: string)
    ensures TrimRight(s) == s[..|TrimRight(s)|]
  {
    if s != [] && IsSpace(s[|s| - 1]) {
      TrimRightIsPrefix(s[..|s| - 1]);
    }
  }

  /** `TrimSpace` only cuts white space: its result is the run of `s` that
      starts after the leading white space, and everything after that run
      is white space too. */
  lemma TrimSpaceIsSlice(s: string)
    ensures var start := |s| - |TrimLeft(s)|;
      && start + |TrimSpace(s)| <= |s| && TrimSpace(s) == s[start..start + |TrimSpace(s)|]
      && (forall i :: 0 <= i < start ==> IsSpace(s[i]))
      && (forall i :: start + |TrimSpace(s)| <= i < |s| ==> IsSpace(s[i]))
  {
    TrimLeftIsSuffix(s);
    TrimRightIsPrefix(TrimLeft(s));
  }

  /** `unicode.ToLower` restricted to ASCII letters. */
  function ToLowerChar(c: char): char {
    if 'A' <= c <= 'Z' then (c as int + 32) as char else c
  }

  /** `strings.ToLower`, letter by letter, for ASCII upper-case letters. */
  function ToLower(s: string): (r: string)
    ensures |r| == |s|
    ensures forall i :: 0 <= i < |s| ==> r[i] == ToLowerChar(s[i])
    ensures forall i :: 0 <= i < |r| ==> !('A' <= r[i] <= 'Z')
  {
    if s == [] then [] else [ToLowerChar(s[0])] + ToLower(s[1..])
  }

  /** Text without capitals is its own lower case. */
  lemma ToLowerOfLower(s: string)
    requires forall i :: 0 <= i < |s| ==> !('A' <= s[i] <= 'Z')
    ensures ToLower(s) == s
  {
  }

  /** Text that neither starts nor ends with white space is its own
      trimmed form. */
  lemma TrimSpaceOfTrimmed(s: string)
    requires s != [] ==> !IsSpace(s[0]) && !IsSpace(s[|s| - 1])
    ensures TrimSpace(s) == s
  {
  }

  /** `strings.ReplaceAll(s, from, to)` for a one-character `from` and `to`:
      every occurrence of `from` becomes `to`, nothing else moves. */
  function ReplaceChar(s: string, from: char, to: char): (r: string)
    ensures |r| == |s|
    ensures forall i :: 0 <= i < |s| ==> r[i] == (if s[i] == from then to else s[i])
  {
    if s == [] then [] else [if s[0] == from then to else s[0]] + ReplaceChar(s[1..], from, to)
  }

  /** The summed length of `parts`. */
  function TotalLength(parts: seq<string>): nat {
    if parts == [] then 0 else |parts[0]| + TotalLength(parts[1..])
  }

  /** `strings.Join`: the parts in order with `sep` between neighbours, so
      the result starts with the first part and is as long as the parts
      plus one separator per gap. */
  function Join(parts: seq<string>, sep: string): (r: string)
    ensures parts == [] ==> r == ""
    ensures parts != [] ==> |r| == TotalLength(parts) + (|parts| - 1) * |sep|
    ensures parts != [] ==> r[..|parts[0]|] == parts[0]
  {
    if |parts| == 0 then ""
    else if |parts| == 1 then parts[0]
    else parts[0] + sep + Join(parts[1..], sep)
  }

  /** An eight-part join written out: each part, with the separator between
      each pair. */
  lemma JoinEight(parts: seq<string>, sep: string)
    requires |parts| == 8
    ensures Join(parts, sep) == parts[0] + sep + parts[1] + sep + parts[2] + sep + parts[3]
      + sep + parts[4] + sep + parts[5] + sep + parts[6] + sep + parts[7]
  {
    assert Join(parts[..1], sep) == parts[0];
    assert parts[..2] == parts[..1] + [parts[1]];
    JoinSnoc(parts[..1], parts[1], sep);
    assert parts[..3] == parts[..2] + [parts[2]];
    JoinSnoc(parts[..2], parts[2], sep);
    assert parts[..4] == parts[..3] + [parts[3]];
    JoinSnoc(parts[..3], parts[3], sep);
    assert parts[..5] == parts[..4] + [parts[4]];
    JoinSnoc(parts[..4], parts[4], sep);
    assert parts[..6] == parts[..5] + [parts[5]];
    JoinSnoc(parts[..5], parts[5], sep);
    assert parts[..7] == parts[..6] + [parts[6]];
    JoinSnoc(parts[..6], parts[6], sep);
    assert parts[..8] == parts[..7] + [parts[7]];
    JoinSnoc(parts[..7], parts[7], sep);
    assert parts[..8] == parts;
  }

  /** Joining one more part puts the separator and the part at the end. */
  lemma {:induction false} JoinSnoc(parts: seq<string>, p: string, sep: string)
    requires parts != []
    ensures Join(parts + [p], sep) == Join(parts, sep) + sep + p
  {
    if |parts| > 1 {
      assert (parts + [p])[1..] == parts[1..] + [p];
      JoinSnoc(parts[1..], p, sep);
    }
  }

  /** `strings.Split` on a one-character separator: the pieces between
      separators, never fewer than one and none containing the separator. */
  function Split(s: string, sep: char): (pieces: seq<string>)
    ensures |pieces| >= 1
    ensures forall k :: 0 <= k < |pieces| ==> sep !in pieces[k]
  {
    if s == [] then [""]
    else
      var rest := Split(s[1..], sep);
      if s[0] == sep then [""] + rest else [[s[0]] + rest[0]] + rest[1..]
  }

  /** Splitting a text whose head holds no separator extends the first piece. */
  lemma {:induction false} SplitPrefix(p: string, t: string, sep: char)
    requires sep !in p
    ensures Split(p + t, sep) == [p + Split(t, sep)[0]] + Split(t, sep)[1..]
  {
    if p != [] {
      assert (p + t)[1..] == p[1..] + t;
      SplitPrefix(p[1..], t, sep);
      assert [p[0]] + (p[1..] + Split(t, sep)[0]) == p + Split(t, sep)[0];
    } else {
      var pieces := Split(t, sep);
      assert p + t == t && p + pieces[0] == pieces[0];
      assert [pieces[0]] + pieces[1..] == pieces;
    }
  }

  /** Joining pieces that hold no separator and splitting again gives the
      pieces back: a tab-joined row can be read back field by field. */
  lemma {:induction false} SplitJoin(parts: seq<string>, sep: char)
    requires |parts| >= 1
    requires forall k :: 0 <= k < |parts| ==> sep !in parts[k]
    ensures Split(Join(parts, [sep]), sep) == parts
  {
    if |parts| == 1 {
      SplitPrefix(parts[0], "", sep);
      assert parts[0] + "" == parts[0];
    } else {
      var rest := Join(parts[1..], [sep]);
      SplitJoin(parts[1..], sep);
      assert Join(parts, [sep]) == parts[0] + ([sep] + rest);
      SplitPrefix(parts[0], [sep] + rest, sep);
      assert ([sep] + rest)[1..] == rest;
      assert Split([sep] + rest, sep) == [""] + parts[1..];
      assert parts[0] + "" == parts[0];
    }
  }

  /** Go's `<` on strings: lexicographic, element by element. (Go compares
      UTF-8 bytes; on well-formed text that is code point order.) */
  predicate Less(a: string, b: string) {
    if b == [] then false
    else if a == [] then true
    else if a[0] != b[0] then a[0] < b[0]
    else Less(a[1..], b[1..])
  }

  lemma {:induction false} LessIrreflexive(a: string)
    ensures !Less(a, a)
  {
    if a != [] {
      LessIrreflexive(a[1..]);
    }
  }

  lemma {:induction false} LessTransitive(a: string, b: string, c: string)
    requires Less(a, b) && Less(b, c)
    ensures Less(a, c)
  {
    if a != [] && a[0] == b[0] && b[0] == c[0] {
      LessTransitive(a[1..], b[1..], c[1..]);
    }
  }

  /** Any two strings are equal or ordered one way or the other. */
  lemma {:induction false} LessTotal(a: string, b: string)
    ensures a == b || Less(a, b) || Less(b, a)
  {
    if a != [] && b != [] && a[0] == b[0] {
      assert a == [a[0]] + a[1..] && b == [b[0]] + b[1..];
      LessTotal(a[1..], b[1..]);
    }
  }
}
