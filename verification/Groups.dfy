/** The comma-separated groups header, on one line or several (source.go, ts/src/source.ts, ts/src/adapters.ts). */
module Groups {
  import opened Text

  // ----- The functional form ---------------------------------------------------------------

  function TrimEach(parts: seq<string>): (r: seq<string>)
    ensures |r| == |parts| && forall i | 0 <= i < |r| :: r[i] == Trim(parts[i])
  {
    if parts == [] then [] else [Trim(parts[0])] + TrimEach(parts[1..])
  }

  function NonEmpty(parts: seq<string>): seq<string> {
    if parts == [] then []
    else (if parts[0] != "" then [parts[0]] else []) + NonEmpty(parts[1..])
  }

  /** `splitAndTrim` in TypeScript: split, map, filter. */
  function SplitAndTrim(s: string, sep: char): seq<string> {
    NonEmpty(TrimEach(Split(s, sep)))
  }

  lemma {:induction false} NonEmptyConcat(a: seq<string>, b: seq<string>)
    ensures NonEmpty(a + b) == NonEmpty(a) + NonEmpty(b)
  {
    if a == [] {
      assert a + b == b;
    } else {
      assert (a + b)[1..] == a[1..] + b;
      NonEmptyConcat(a[1..], b);
    }
  }

  lemma {:induction false} TrimEachConcat(a: seq<string>, b: seq<string>)
    ensures TrimEach(a + b) == TrimEach(a) + TrimEach(b)
  {
    if a == [] {
      assert a + b == b;
    } else {
      assert (a + b)[1..] == a[1..] + b;
      TrimEachConcat(a[1..], b);
    }
  }

  // ----- The append loop -------------------------------------------------------------------

  /** `splitAndTrim` in Go appends as it scans, and computes what the TypeScript pipeline does. */
  method SplitAndTrimLoop(s: string, sep: char) returns (out: seq<string>)
    ensures out == SplitAndTrim(s, sep)
  {
    var parts := Split(s, sep);
    out := [];
    for i := 0 to |parts|
      invariant out == NonEmpty(TrimEach(parts)[..i])
    {
      var trimmed := Trim(parts[i]);
      if trimmed != "" {
        out := out + [trimmed];
      }
      assert TrimEach(parts)[..i + 1] == TrimEach(parts)[..i] + [trimmed];
      NonEmptyConcat(TrimEach(parts)[..i], [trimmed]);
    }
    assert TrimEach(parts)[..|parts|] == TrimEach(parts);
  }

  // ----- Homomorphism ----------------------------------------------------------------------

  /** Splitting two texts joined by the separator is splitting each. */
  lemma SplitAndTrimConcat(a: string, sep: char, b: string)
    ensures SplitAndTrim(a + [sep] + b, sep) == SplitAndTrim(a, sep) + SplitAndTrim(b, sep)
  {
    SplitConcat(a, sep, b);
    TrimEachConcat(Split(a, sep), Split(b, sep));
    NonEmptyConcat(TrimEach(Split(a, sep)), TrimEach(Split(b, sep)));
  }

  /** A clean group: what `SplitAndTrim` can return. */
  predicate Clean(g: string, sep: char) {
    g != "" && Trimmed(g) && Without(g, sep)
  }

  lemma {:induction false} NonEmptyKeeps(parts: seq<string>, sep: char)
    requires forall i | 0 <= i < |parts| :: Trimmed(parts[i]) && Without(parts[i], sep)
    ensures forall g | g in NonEmpty(parts) :: Clean(g, sep)
  {
    if parts != [] {
      NonEmptyKeeps(parts[1..], sep);
    }
  }

  lemma SplitAndTrimIsClean(s: string, sep: char)
    ensures forall g | g in SplitAndTrim(s, sep) :: Clean(g, sep)
  {
    var parts := Split(s, sep);
    SplitPartsWithout(s, sep);
    forall i | 0 <= i < |parts|
      ensures Trimmed(TrimEach(parts)[i]) && Without(TrimEach(parts)[i], sep)
    {
      TrimIsTrimmed(parts[i]);
      TrimWithout(parts[i], sep);
    }
    NonEmptyKeeps(TrimEach(parts), sep);
  }

  lemma {:induction false} NonEmptyAll(parts: seq<string>)
    requires forall i | 0 <= i < |parts| :: parts[i] != ""
    ensures NonEmpty(parts) == parts
  {
    if parts != [] {
      NonEmptyAll(parts[1..]);
      assert parts == [parts[0]] + parts[1..];
    }
  }

  ghost predicate Pads(padded: string, g: string) {
    exists l, r :: Blank(l) && Blank(r) && padded == l + g + r
  }

  lemma Unpadded(padded: string, g: string, sep: char)
    requires !IsSpace(sep) && Clean(g, sep) && Pads(padded, g)
    ensures Without(padded, sep) && Trim(padded) == g
  {
    var l, r :| Blank(l) && Blank(r) && padded == l + g + r;
    TrimUnpads(l, g, r);
  }

  /**
    Any list of clean groups is recovered from its joined form, whatever white space pads each
    group.
   */
  lemma PaddedGroupsAreRecovered(groups: seq<string>, padded: seq<string>, sep: char)
    requires !IsSpace(sep) && |padded| == |groups|
    requires forall i | 0 <= i < |groups| :: Clean(groups[i], sep)
    requires forall i | 0 <= i < |groups| :: Pads(padded[i], groups[i])
    ensures SplitAndTrim(Join(padded, [sep]), sep) == groups
  {
    if groups == [] {
      assert Join(padded, [sep]) == "";
      assert TrimEach([""]) == [""];
    } else {
      forall i | 0 <= i < |groups|
        ensures Without(padded[i], sep) && Trim(padded[i]) == groups[i]
      {
        Unpadded(padded[i], groups[i], sep);
      }
      SplitJoin(padded, sep);
      assert TrimEach(padded) == groups;
      NonEmptyAll(groups);
    }
  }

  /** Splitting what was split and joined again changes nothing. */
  lemma SplitAndTrimIsIdempotent(s: string, sep: char)
    requires !IsSpace(sep)
    ensures SplitAndTrim(Join(SplitAndTrim(s, sep), [sep]), sep) == SplitAndTrim(s, sep)
  {
    var groups := SplitAndTrim(s, sep);
    SplitAndTrimIsClean(s, sep);
    forall i | 0 <= i < |groups|
      ensures Pads(groups[i], groups[i])
    {
      assert Blank("") && groups[i] == "" + groups[i] + "";
    }
    PaddedGroupsAreRecovered(groups, groups, sep);
  }

  // ----- Duplicated headers -----------------------------------------------------------------

  /** `fromNodeHeaders`: a duplicated header is joined with ", ". */
  function NodeValue(values: seq<string>): string {
    Join(values, ", ")
  }

  lemma LinesAreJoined(line: string, more: seq<string>)
    ensures NodeValue([line]) == line
    ensures more != [] ==> NodeValue([line] + more) == line + ", " + NodeValue(more)
  {
    assert ([line] + more)[1..] == more;
  }

  function Concat(lists: seq<seq<string>>): seq<string> {
    if lists == [] then [] else lists[0] + Concat(lists[1..])
  }

  function SplitEach(values: seq<string>): (r: seq<seq<string>>)
    ensures |r| == |values| && forall i | 0 <= i < |r| :: r[i] == SplitAndTrim(values[i], ',')
  {
    if values == [] then [] else [SplitAndTrim(values[0], ',')] + SplitEach(values[1..])
  }

  lemma LeadingSpaceIsIgnored(s: string)
    ensures SplitAndTrim(" " + s, ',') == SplitAndTrim(s, ',')
  {
    var parts := Split(s, ',');
    assert (" " + s)[1..] == s;
    assert Split(" " + s, ',') == [" " + parts[0]] + parts[1..];
    assert (" " + parts[0])[1..] == parts[0];
    assert Trim(" " + parts[0]) == Trim(parts[0]);
    assert TrimEach([" " + parts[0]] + parts[1..]) == TrimEach(parts);
  }

  /** Groups spread over several header lines are the groups of each line, in order. */
  lemma {:induction false} DuplicateHeadersConcatenate(values: seq<string>)
    ensures SplitAndTrim(NodeValue(values), ',') == Concat(SplitEach(values))
  {
    if |values| == 0 {
      assert TrimEach([""]) == [""];
    } else if |values| == 1 {
      assert Concat(SplitEach(values)[1..]) == [];
    } else {
      var rest := NodeValue(values[1..]);
      assert NodeValue(values) == values[0] + [','] + (" " + rest);
      SplitAndTrimConcat(values[0], ',', " " + rest);
      LeadingSpaceIsIgnored(rest);
      DuplicateHeadersConcatenate(values[1..]);
    }
  }

  lemma CleanGroupAlone(g: string)
    requires Clean(g, ',')
    ensures SplitAndTrim(g, ',') == [g]
  {
    SplitWithout(g, ',');
    TrimIsTrimmed(g);
    assert TrimEach([g]) == [g];
    NonEmptyAll([g]);
  }

  lemma TwoLines(a: string, b: string)
    requires Clean(a, ',') && Clean(b, ',')
    ensures SplitAndTrim(NodeValue([a, b]), ',') == [a, b]
  {
    DuplicateHeadersConcatenate([a, b]);
    CleanGroupAlone(a);
    CleanGroupAlone(b);
    assert [a, b][1..] == [b];
    assert SplitEach([b]) == [[b]];
    assert SplitEach([a, b]) == [[a]] + [[b]];
    assert Concat([[b]]) == [b] + Concat([]);
  }

  // ----- Lines that hold no group -------------------------------------------------------------

  /** `http.Header.Get` and its like in Go: the first line of a repeated header. */
  function FirstLine(lines: seq<string>): string {
    if lines == [] then "" else lines[0]
  }

  /** Nothing but separators and white space. */
  predicate Vacant(s: string, sep: char) {
    forall i | 0 <= i < |s| :: IsSpace(s[i]) || s[i] == sep
  }

  lemma BlankCons(c: char, s: string)
    ensures Blank([c] + s) <==> IsSpace(c) && Blank(s)
  {
    assert ([c] + s)[0] == c && forall i | 0 <= i < |s| :: ([c] + s)[i + 1] == s[i];
  }

  predicate AllBlank(parts: seq<string>) {
    parts == [] || (Blank(parts[0]) && AllBlank(parts[1..]))
  }

  lemma {:induction false} VacantParts(s: string, sep: char)
    ensures AllBlank(Split(s, sep)) <==> Vacant(s, sep)
  {
    if s == "" {
      assert [""][1..] == [];
    } else {
      var rest, parts := Split(s[1..], sep), Split(s, sep);
      VacantParts(s[1..], sep);
      assert forall i | 0 < i < |s| :: s[i] == s[1..][i - 1];
      if s[0] == sep {
        assert parts[1..] == rest;
      } else {
        assert parts[1..] == rest[1..];
        BlankCons(s[0], rest[0]);
      }
    }
  }

  lemma {:induction false} NothingKept(parts: seq<string>)
    ensures NonEmpty(TrimEach(parts)) == [] <==> AllBlank(parts)
  {
    if parts != [] {
      assert TrimEach(parts)[1..] == TrimEach(parts[1..]);
      NothingKept(parts[1..]);
      TrimsToNothing(parts[0]);
    }
  }

  /** A header holds no group exactly when it is vacant. */
  lemma NoGroupsExactlyWhen(s: string, sep: char)
    ensures SplitAndTrim(s, sep) == [] <==> Vacant(s, sep)
  {
    VacantParts(s, sep);
    NothingKept(Split(s, sep));
  }

  lemma {:induction false} NothingConcatenated(lists: seq<seq<string>>)
    ensures Concat(lists) == [] <==> forall i | 0 <= i < |lists| :: lists[i] == []
  {
    if lists != [] {
      NothingConcatenated(lists[1..]);
      assert forall i | 0 < i < |lists| :: lists[i] == lists[1..][i - 1];
    }
  }

  /**
    Reading the first line only, as Go does, gives a prefix of what the joined lines give, and all
    of it exactly when the other lines are vacant.
   */
  lemma FirstLineIsEnoughExactlyWhen(lines: seq<string>)
    ensures SplitAndTrim(FirstLine(lines), ',') <= SplitAndTrim(NodeValue(lines), ',')
    ensures SplitAndTrim(FirstLine(lines), ',') == SplitAndTrim(NodeValue(lines), ',') <==>
            forall i | 0 < i < |lines| :: Vacant(lines[i], ',')
  {
    DuplicateHeadersConcatenate(lines);
    if lines == [] {
      assert TrimEach([""]) == [""];
    } else {
      var rest := SplitEach(lines[1..]);
      NothingConcatenated(rest);
      forall i | 0 < i < |lines|
        ensures rest[i - 1] == [] <==> Vacant(lines[i], ',')
      {
        NoGroupsExactlyWhen(lines[i], ',');
      }
      assert forall i | 0 <= i < |rest| :: rest[i] == rest[i + 1 - 1];
      assert SplitEach(lines) == [SplitAndTrim(lines[0], ',')] + rest;
    }
  }
}
