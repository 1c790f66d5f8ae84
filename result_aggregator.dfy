/** The detail line the check appends for each record (CachedGPPPassword.cs,
    the interpolated string passed to `_details.Add`), and a reader for it
    that shows the line loses nothing when no field contains `|`. */
module ResultAggregator {
  import opened Outcomes
  import opened ExtractionEngine

  /** `UserName: u | NewName: n | cPassword: p | Changed: c` */
  function FormatLine(r: Record): (line: string)
    ensures |line| == 48 + |r.userName| + |r.newName| + |r.cPassword| + |r.changed|
    ensures line[..10] == "UserName: " && line[10..10 + |r.userName|] == r.userName
  {
    "UserName: " + r.userName + " | NewName: " + r.newName
    + " | cPassword: " + r.cPassword + " | Changed: " + r.changed
  }

  /** The pieces of `s` between occurrences of `c`, in order. */
  function Split(s: string, c: char): (parts: seq<string>)
    ensures |parts| >= 1
  {
    if s == [] then [""]
    else
      var rest := Split(s[1..], c);
      if s[0] == c then [""] + rest else [[s[0]] + rest[0]] + rest[1..]
  }

  /** A text without `c` is one piece. */
  lemma {:induction false} SplitNoSeparator(s: string, c: char)
    requires c !in s
    ensures Split(s, c) == [s]
  {
    if s != [] {
      SplitNoSeparator(s[1..], c);
      assert [s[0]] + s[1..] == s;
    }
  }

  /** Splitting at the first separator. */
  lemma {:induction false} SplitAtSeparator(a: string, b: string, c: char)
    requires c !in a
    ensures Split(a + [c] + b, c) == [a] + Split(b, c)
  {
    var s := a + [c] + b;
    if a == [] {
      assert s[1..] == b;
    } else {
      assert s[1..] == a[1..] + [c] + b;
      SplitAtSeparator(a[1..], b, c);
      assert [a[0]] + a[1..] == a;
    }
  }

  /** `s` with `pre` removed from its front and `post` from its back, if it has both. */
  function StripAround(s: string, pre: string, post: string): Option<string> {
    if |pre| + |post| <= |s| && s[..|pre|] == pre && s[|s| - |post|..] == post
    then Some(s[|pre|..|s| - |post|])
    else None
  }

  lemma StripAroundFraming(pre: string, x: string, post: string)
    ensures StripAround(pre + x + post, pre, post) == Some(x)
  {
    var s := pre + x + post;
    assert s[..|pre|] == pre;
    assert s[|s| - |post|..] == post;
    assert s[|pre|..|s| - |post|] == x;
  }

  /** Reads a detail line back into its four fields. */
  function ParseLine(line: string): Option<Record> {
    ParseParts(Split(line, '|'))
  }

  /** The four `|`-separated pieces of a line, each stripped of its label. */
  function ParseParts(parts: seq<string>): Option<Record> {
    if |parts| != 4 then None
    else
      match (StripAround(parts[0], "UserName: ", " "), StripAround(parts[1], " NewName: ", " "),
             StripAround(parts[2], " cPassword: ", " "), StripAround(parts[3], " Changed: ", ""))
      case (Some(u), Some(n), Some(p), Some(c)) => Some(Record(u, n, p, c))
      case _ => None
  }

  /** No field of the record contains the separator `|`. */
  predicate SeparatorFree(r: Record) {
    '|' !in r.userName && '|' !in r.newName && '|' !in r.cPassword && '|' !in r.changed
  }

  /** Four separator-free pieces joined by `|` split back into those pieces. */
  lemma SplitFour(p0: string, p1: string, p2: string, p3: string)
    requires '|' !in p0 && '|' !in p1 && '|' !in p2 && '|' !in p3
    ensures Split(p0 + "|" + p1 + "|" + p2 + "|" + p3, '|') == [p0, p1, p2, p3]
  {
    assert p0 + "|" + p1 + "|" + p2 + "|" + p3 == p0 + ['|'] + (p1 + ['|'] + (p2 + ['|'] + p3));
    SplitAtSeparator(p0, p1 + ['|'] + (p2 + ['|'] + p3), '|');
    SplitAtSeparator(p1, p2 + ['|'] + p3, '|');
    SplitAtSeparator(p2, p3, '|');
    SplitNoSeparator(p3, '|');
  }

  /** The labels around the fields hold no `|`. */
  lemma LabelsSeparatorFree()
    ensures '|' !in "UserName: " && '|' !in " NewName: " && '|' !in " cPassword: "
    ensures '|' !in " Changed: " && '|' !in " "
  {
  }

  /** The four labelled pieces of a record's line read back as the record. */
  lemma ParsePartsOfRecord(r: Record)
    ensures ParseParts(["UserName: " + r.userName + " ", " NewName: " + r.newName + " ",
                        " cPassword: " + r.cPassword + " ", " Changed: " + r.changed]) == Some(r)
  {
    StripAroundFraming("UserName: ", r.userName, " ");
    StripAroundFraming(" NewName: ", r.newName, " ");
    StripAroundFraming(" cPassword: ", r.cPassword, " ");
    StripAroundFraming(" Changed: ", r.changed, "");
    assert " Changed: " + r.changed + "" == " Changed: " + r.changed;
  }

  /** A detail line is its four labelled pieces joined by `|`. */
  lemma FormatLineJoin(r: Record)
    ensures FormatLine(r) == ("UserName: " + r.userName + " ") + "|" + (" NewName: " + r.newName + " ")
      + "|" + (" cPassword: " + r.cPassword + " ") + "|" + (" Changed: " + r.changed)
  {
  }

  /** The line determines the record: reading it back gives the fields
      that were formatted, whenever none of them contains `|`. */
  lemma {:induction false} ParseFormatRoundTrip(r: Record)
    requires SeparatorFree(r)
    ensures ParseLine(FormatLine(r)) == Some(r)
  {
    var p0 := "UserName: " + r.userName + " ";
    var p1 := " NewName: " + r.newName + " ";
    var p2 := " cPassword: " + r.cPassword + " ";
    var p3 := " Changed: " + r.changed;
    FormatLineJoin(r);
    LabelsSeparatorFree();
    SplitFour(p0, p1, p2, p3);
    ParsePartsOfRecord(r);
  }

  /** Hence two separator-free records with the same line are the same record. */
  lemma FormatLineInjective(r: Record, s: Record)
    requires SeparatorFree(r) && SeparatorFree(s) && FormatLine(r) == FormatLine(s)
    ensures r == s
  {
    ParseFormatRoundTrip(r);
    ParseFormatRoundTrip(s);
  }
}
