/**
  The string routines of Go's `strings` package and of JavaScript's `String` that the
  credential codecs are written with, on ASCII text: trimming, splitting, cutting, joining
  and case folding.
 */
module Text {
  import opened Wrappers

  function Default(s: string, fallback: string): string {
    if s == "" then fallback else s
  }

  // ----- Trimming ---------------------------------------------------------------------

  /** The ASCII characters that both `strings.TrimSpace` and `String.prototype.trim` remove. */
  predicate IsSpace(c: char) {
    c == ' ' || '\t' <= c <= '\r'
  }

  /** The six of them. */
  lemma WhiteSpaceIs(c: char)
    ensures IsSpace(c) <==> c in {' ', '\t', '\n', 11 as char, 12 as char, '\r'}
  {
  }

  predicate Blank(s: string) {
    forall i | 0 <= i < |s| :: IsSpace(s[i])
  }

  /** Neither end of `s` is white space. */
  predicate Trimmed(s: string) {
    s == "" || (!IsSpace(s[0]) && !IsSpace(s[|s| - 1]))
  }

  function TrimLeft(s: string): string {
    if s != "" && IsSpace(s[0]) then TrimLeft(s[1..]) else s
  }

  function TrimRight(s: string): string {
    if s != "" && IsSpace(s[|s| - 1]) then TrimRight(s[..|s| - 1]) else s
  }

  function Trim(s: string): string {
    TrimRight(TrimLeft(s))
  }

  lemma {:induction false} TrimLeftUnpads(l: string, t: string)
    requires Blank(l) && (t == "" || !IsSpace(t[0]))
    ensures TrimLeft(l + t) == t
  {
    if l == "" {
      assert l + t == t;
    } else {
      assert (l + t)[1..] == l[1..] + t;
      TrimLeftUnpads(l[1..], t);
    }
  }

  lemma {:induction false} TrimRightUnpads(t: string, r: string)
    requires Blank(r) && (t == "" || !IsSpace(t[|t| - 1]))
    ensures TrimRight(t + r) == t
  {
    if r == "" {
      assert t + r == t;
    } else {
      assert (t + r)[..|t + r| - 1] == t + r[..|r| - 1];
      TrimRightUnpads(t, r[..|r| - 1]);
    }
  }

  /** Trimming removes any padding and nothing else. */
  lemma TrimUnpads(l: string, t: string, r: string)
    requires Blank(l) && Blank(r) && Trimmed(t)
    ensures Trim(l + t + r) == t
  {
    if t == "" {
      assert l + t + r == (l + r) + "";
      TrimLeftUnpads(l + r, "");
    } else {
      assert l + t + r == l + (t + r);
      TrimLeftUnpads(l, t + r);
      TrimRightUnpads(t, r);
    }
  }

  lemma {:induction false} TrimLeftPads(s: string) returns (l: string)
    ensures Blank(l) && s == l + TrimLeft(s)
    ensures TrimLeft(s) == "" || !IsSpace(TrimLeft(s)[0])
  {
    if s != "" && IsSpace(s[0]) {
      var rest := TrimLeftPads(s[1..]);
      l := [s[0]] + rest;
      assert s == [s[0]] + s[1..] == l + TrimLeft(s[1..]);
    } else {
      l := "";
    }
  }

  lemma {:induction false} TrimRightPads(s: string) returns (r: string)
    ensures Blank(r) && s == TrimRight(s) + r
    ensures TrimRight(s) == "" || !IsSpace(TrimRight(s)[|TrimRight(s)| - 1])
  {
    if s != "" && IsSpace(s[|s| - 1]) {
      var rest := TrimRightPads(s[..|s| - 1]);
      r := rest + [s[|s| - 1]];
      assert s == s[..|s| - 1] + [s[|s| - 1]];
    } else {
      r := "";
    }
  }

  /** Every string is its trimmed core between two runs of white space. */
  lemma TrimPads(s: string) returns (l: string, r: string)
    ensures Blank(l) && Blank(r) && Trimmed(Trim(s)) && s == l + Trim(s) + r
  {
    l := TrimLeftPads(s);
    r := TrimRightPads(TrimLeft(s));
    assert s == l + (Trim(s) + r);
  }

  lemma TrimIsTrimmed(s: string)
    ensures Trimmed(Trim(s))
    ensures Trimmed(s) ==> Trim(s) == s
  {
    var _, _ := TrimPads(s);
    if Trimmed(s) {
      TrimUnpads("", s, "");
      assert "" + s + "" == s;
    }
  }

  lemma TrimsToNothing(s: string)
    ensures Trim(s) == "" <==> Blank(s)
  {
    var l, r := TrimPads(s);
    if Blank(s) {
      TrimUnpads(s, "", "");
      assert s + "" + "" == s;
    }
  }

  predicate Without(s: string, c: char) {
    forall i | 0 <= i < |s| :: s[i] != c
  }

  lemma TrimWithout(s: string, c: char)
    requires Without(s, c)
    ensures Without(Trim(s), c)
  {
    var l, r := TrimPads(s);
    forall k | 0 <= k < |Trim(s)|
      ensures Trim(s)[k] != c
    {
      assert s[|l| + k] == Trim(s)[k];
    }
  }

  // ----- Splitting and joining ---------------------------------------------------------

  /** `strings.Split` on a one-character separator: never empty. */
  function Split(s: string, sep: char): (parts: seq<string>)
    ensures |parts| > 0
  {
    if s == "" then [""]
    else
      var rest := Split(s[1..], sep);
      if s[0] == sep then [""] + rest else [[s[0]] + rest[0]] + rest[1..]
  }

  function Join(parts: seq<string>, sep: string): string {
    if parts == [] then ""
    else if |parts| == 1 then parts[0]
    else parts[0] + sep + Join(parts[1..], sep)
  }

  lemma {:induction false} SplitWithout(s: string, sep: char)
    requires Without(s, sep)
    ensures Split(s, sep) == [s]
  {
    if s != "" {
      SplitWithout(s[1..], sep);
      assert s == [s[0]] + s[1..];
    }
  }

  /** A separator in the text is a boundary between independent splits. */
  lemma {:induction false} SplitConcat(a: string, sep: char, b: string)
    ensures Split(a + [sep] + b, sep) == Split(a, sep) + Split(b, sep)
  {
    var s := a + [sep] + b;
    if a == "" {
      assert s[1..] == b;
    } else {
      assert s[1..] == a[1..] + [sep] + b;
      SplitConcat(a[1..], sep, b);
    }
  }

  lemma {:induction false} SplitPartsWithout(s: string, sep: char)
    ensures forall i | 0 <= i < |Split(s, sep)| :: Without(Split(s, sep)[i], sep)
  {
    if s != "" {
      SplitPartsWithout(s[1..], sep);
    }
  }

  /** Splitting undoes joining when no part contains the separator. */
  lemma {:induction false} SplitJoin(parts: seq<string>, sep: char)
    requires |parts| > 0 && forall i | 0 <= i < |parts| :: Without(parts[i], sep)
    ensures Split(Join(parts, [sep]), sep) == parts
  {
    SplitWithout(parts[0], sep);
    if |parts| > 1 {
      SplitConcat(parts[0], sep, Join(parts[1..], [sep]));
      SplitJoin(parts[1..], sep);
    }
  }

  lemma {:induction false} JoinSplit(s: string, sep: char)
    ensures Join(Split(s, sep), [sep]) == s
  {
    if s != "" {
      JoinSplit(s[1..], sep);
      var rest := Split(s[1..], sep);
      if s[0] == sep {
        assert ([""] + rest)[1..] == rest;
      } else {
        assert ([[s[0]] + rest[0]] + rest[1..])[1..] == rest[1..];
        assert s == [s[0]] + s[1..];
      }
    }
  }

  lemma {:induction false} JoinConcat(a: seq<string>, b: seq<string>, sep: string)
    requires a != [] && b != []
    ensures Join(a + b, sep) == Join(a, sep) + sep + Join(b, sep)
  {
    assert (a + b)[1..] == a[1..] + b;
    if |a| > 1 {
      JoinConcat(a[1..], b, sep);
    }
  }

  // ----- Occurrences ----------------------------------------------------------------------

  predicate OccursAt(w: string, s: string, i: int) {
    0 <= i <= |s| && w <= s[i..]
  }

  /** Another character touches the occurrence of `w` at `i`: neither the separator nor an end of the text. */
  predicate GluedAt(w: string, s: string, sep: char, i: int)
    requires OccursAt(w, s, i)
  {
    (i > 0 && s[i - 1] != sep) || (i + |w| < |s| && s[i + |w|] != sep)
  }

  lemma FreeOccurrenceIsPart(w: string, s: string, sep: char, i: int)
    requires Without(w, sep) && OccursAt(w, s, i) && !GluedAt(w, s, sep, i)
    ensures w in Split(s, sep)
  {
    var tail := s[i..];
    SplitWithout(w, sep);
    if i + |w| < |s| {
      assert tail == w + [sep] + s[i + |w| + 1..];
      SplitConcat(w, sep, s[i + |w| + 1..]);
    } else {
      assert tail == w;
    }
    assert w in Split(tail, sep);
    if i > 0 {
      assert s == s[..i - 1] + [sep] + tail;
      SplitConcat(s[..i - 1], sep, tail);
    } else {
      assert s == tail;
    }
  }

  lemma PartOccursFree(s: string, sep: char, k: nat) returns (i: int)
    requires k < |Split(s, sep)|
    ensures OccursAt(Split(s, sep)[k], s, i) && !GluedAt(Split(s, sep)[k], s, sep, i)
  {
    var parts := Split(s, sep);
    var w, tail := parts[k], Join(parts[k..], [sep]);
    JoinSplit(s, sep);
    if k + 1 < |parts| {
      assert parts[k..] == [w] + parts[k + 1..];
      JoinConcat([w], parts[k + 1..], [sep]);
    }
    assert w <= tail && (|w| == |tail| || tail[|w|] == sep);
    if k > 0 {
      assert parts == parts[..k] + parts[k..];
      JoinConcat(parts[..k], parts[k..], [sep]);
      i := |Join(parts[..k], [sep])| + 1;
      assert s == Join(parts[..k], [sep]) + [sep] + tail;
    } else {
      i := 0;
      assert parts[k..] == parts;
    }
    assert s[i..] == tail;
  }

  /** A word is one of the parts exactly when it occurs somewhere with nothing glued to it. */
  lemma PartsAreFreeOccurrences(w: string, s: string, sep: char)
    requires Without(w, sep)
    ensures w in Split(s, sep) <==> exists i :: OccursAt(w, s, i) && !GluedAt(w, s, sep, i)
  {
    if w in Split(s, sep) {
      var k :| 0 <= k < |Split(s, sep)| && Split(s, sep)[k] == w;
      var i := PartOccursFree(s, sep, k);
    }
    if i :| OccursAt(w, s, i) && !GluedAt(w, s, sep, i) {
      FreeOccurrenceIsPart(w, s, sep, i);
    }
  }

  // ----- Cutting ------------------------------------------------------------------------

  /** `strings.Cut` on a one-character separator: the text before and after its first occurrence. */
  function Cut(s: string, sep: char): Option<(string, string)> {
    if s == "" then None
    else if s[0] == sep then Some(("", s[1..]))
    else match Cut(s[1..], sep)
      case None => None
      case Some((before, after)) => Some(([s[0]] + before, after))
  }

  lemma {:induction false} CutAtFirst(before: string, sep: char, after: string)
    requires Without(before, sep)
    ensures Cut(before + [sep] + after, sep) == Some((before, after))
  {
    var s := before + [sep] + after;
    if before == "" {
      assert s[1..] == after;
    } else {
      assert s[1..] == before[1..] + [sep] + after;
      CutAtFirst(before[1..], sep, after);
      assert [before[0]] + before[1..] == before;
    }
  }

  lemma {:induction false} CutWithout(s: string, sep: char)
    requires Without(s, sep)
    ensures Cut(s, sep) == None
  {
    if s != "" {
      CutWithout(s[1..], sep);
    }
  }

  // ----- Case folding -------------------------------------------------------------------

  function Lower(c: char): char {
    if 'A' <= c <= 'Z' then c + 32 as char else c
  }

  /** JavaScript's `toLowerCase`. */
  function ToLower(s: string): (r: string)
    ensures |r| == |s|
  {
    seq(|s|, i requires 0 <= i < |s| => Lower(s[i]))
  }

  /** One step of `strings.EqualFold`: equal, or the two cases of one letter. */
  predicate FoldsTo(a: char, b: char) {
    || a == b
    || ('A' <= a <= 'Z' && b == a + 32 as char)
    || ('A' <= b <= 'Z' && a == b + 32 as char)
  }

  /** `strings.EqualFold`: the two texts are walked together. */
  predicate EqualFold(s: string, t: string) {
    if s == "" || t == "" then s == t
    else FoldsTo(s[0], t[0]) && EqualFold(s[1..], t[1..])
  }

  function Upper(c: char): char {
    if 'a' <= c <= 'z' then c - 32 as char else c
  }

  /** Two characters fold together exactly when they are one letter in either case, or the same. */
  lemma FoldsExactlyWhen(c: char, d: char)
    ensures FoldsTo(c, d) <==> Upper(c) == Upper(d)
    ensures Lower(Upper(c)) == Lower(c) && (Upper(c) != c ==> Lower(Upper(c)) == c)
  {
  }

  /** Walking two texts together finds them equal exactly when their lower-cased forms are. */
  lemma {:induction false} EqualFoldIsLowerEqual(s: string, t: string)
    ensures EqualFold(s, t) <==> ToLower(s) == ToLower(t)
  {
    if s == "" || t == "" {
      assert s != t ==> |ToLower(s)| != |ToLower(t)|;
    } else {
      EqualFoldIsLowerEqual(s[1..], t[1..]);
      assert ToLower(s) == [Lower(s[0])] + ToLower(s[1..]);
      assert ToLower(t) == [Lower(t[0])] + ToLower(t[1..]);
      assert FoldsTo(s[0], t[0]) <==> Lower(s[0]) == Lower(t[0]);
      if ToLower(s) == ToLower(t) {
        assert ToLower(s)[1..] == ToLower(s[1..]) && ToLower(t)[1..] == ToLower(t[1..]);
        assert ToLower(s)[0] == ToLower(t)[0];
      }
    }
  }
}
