/** `str.split`, `str.rsplit`, `str.join` and the order of `sorted` on strings. */
module Text {

  predicate Without(s: string, c: char) { c !in s }

  /** The pieces with one more character at the front of the first. */
  function Prepend(x: char, pieces: seq<string>): (r: seq<string>)
    requires |pieces| > 0
    ensures |r| == |pieces|
  {
    [[x] + pieces[0]] + pieces[1..]
  }

  /** `s.split(c)`: always at least one piece. */
  function Split(s: string, c: char): (pieces: seq<string>)
    ensures |pieces| > 0
    ensures forall p :: p in pieces ==> Without(p, c)
  {
    if s == "" then [""]
    else if s[0] == c then [""] + Split(s[1..], c)
    else
      var rest := Split(s[1..], c);
      assert rest[0] in rest && Without([s[0]] + rest[0], c);
      Prepend(s[0], rest)
  }

  /** `c.join(pieces)`. */
  function Join(pieces: seq<string>, c: char): string {
    if pieces == [] then ""
    else if |pieces| == 1 then pieces[0]
    else pieces[0] + [c] + Join(pieces[1..], c)
  }

  lemma {:induction false} SplitPlain(s: string, c: char)
    requires Without(s, c)
    ensures Split(s, c) == [s]
  {
    if s != "" {
      SplitPlain(s[1..], c);
      assert s == [s[0]] + s[1..];
    }
  }

  lemma PrependConcat(x: char, left: seq<string>, right: seq<string>)
    requires |left| > 0
    ensures Prepend(x, left + right) == Prepend(x, left) + right
  {
    assert (left + right)[1..] == left[1..] + right;
  }

  lemma Regroup(a: seq<string>, b: seq<string>, c: seq<string>)
    ensures a + (b + c) == (a + b) + c
  {
  }

  /** Splitting at a delimiter splits both sides. */
  lemma {:induction false} SplitConcat(a: string, b: string, c: char)
    ensures Split(a + [c] + b, c) == Split(a, c) + Split(b, c)
  {
    var s := a + [c] + b;
    if a == "" {
      assert s[1..] == b;
    } else {
      SplitConcat(a[1..], b, c);
      assert s[1..] == a[1..] + [c] + b && s[0] == a[0];
      PrependConcat(a[0], Split(a[1..], c), Split(b, c));
      Regroup([""], Split(a[1..], c), Split(b, c));
    }
  }

  /** Joining delimiter-free pieces and splitting again gives the pieces. */
  lemma {:induction false} SplitJoin(pieces: seq<string>, c: char)
    requires |pieces| > 0 && forall p :: p in pieces ==> Without(p, c)
    ensures Split(Join(pieces, c), c) == pieces
  {
    if |pieces| == 1 {
      SplitPlain(pieces[0], c);
    } else {
      SplitJoin(pieces[1..], c);
      SplitConcat(pieces[0], Join(pieces[1..], c), c);
      SplitPlain(pieces[0], c);
    }
  }

  /** Splitting and joining again gives the string. */
  lemma {:induction false} JoinSplit(s: string, c: char)
    ensures Join(Split(s, c), c) == s
  {
    if s != "" {
      JoinSplit(s[1..], c);
      var rest := Split(s[1..], c);
      if s[0] == c {
        assert ([""] + rest)[1..] == rest;
      } else {
        var pieces := [[s[0]] + rest[0]] + rest[1..];
        assert pieces[1..] == rest[1..];
      }
    }
  }

  /** `s.split(c, n)`: at most n cuts, the last piece keeps the rest. */
  function SplitMax(s: string, c: char, n: nat): seq<string> {
    var pieces := Split(s, c);
    if |pieces| <= n + 1 then pieces else pieces[..n] + [Join(pieces[n..], c)]
  }

  /** `s.rsplit(c, 1)`: one cut, at the last delimiter. */
  function SplitLast(s: string, c: char): seq<string> {
    var pieces := Split(s, c);
    var n := |pieces| - 1;
    if n == 0 then pieces else [Join(pieces[..n], c), pieces[n]]
  }

  lemma {:induction false} JoinAppends(pieces: seq<string>, last: string, c: char)
    requires |pieces| > 0
    ensures Join(pieces + [last], c) == Join(pieces, c) + [c] + last
  {
    if |pieces| > 1 {
      JoinAppends(pieces[1..], last, c);
      assert (pieces + [last])[1..] == pieces[1..] + [last];
    }
  }

  lemma {:induction false} JoinNests(pieces: seq<string>, c: char, n: nat)
    requires n < |pieces|
    ensures Join(pieces[..n] + [Join(pieces[n..], c)], c) == Join(pieces, c)
  {
    if n > 0 {
      JoinNests(pieces[1..], c, n - 1);
      var nested := pieces[..n] + [Join(pieces[n..], c)];
      assert nested[1..] == pieces[1..][..n - 1] + [Join(pieces[1..][n - 1..], c)];
    } else {
      assert pieces[0..] == pieces && pieces[..0] == [];
    }
  }

  lemma SplitMaxJoins(s: string, c: char, n: nat)
    ensures Join(SplitMax(s, c, n), c) == s
  {
    JoinSplit(s, c);
    var pieces := Split(s, c);
    if |pieces| > n + 1 {
      JoinNests(pieces, c, n);
    }
  }

  /** The cut of `rsplit` undoes appending a delimiter-free piece, and only that. */
  lemma SplitLastCuts(head: string, last: string, c: char)
    requires Without(last, c)
    ensures SplitLast(head + [c] + last, c) == [head, last]
  {
    SplitConcat(head, last, c);
    SplitPlain(last, c);
    JoinSplit(head, c);
    var pieces := Split(head + [c] + last, c);
    assert pieces[..|pieces| - 1] == Split(head, c);
  }

  lemma SplitLastJoins(s: string, c: char)
    requires |SplitLast(s, c)| == 2
    ensures var cut := SplitLast(s, c); s == cut[0] + [c] + cut[1] && Without(cut[1], c)
  {
    JoinSplit(s, c);
    var pieces := Split(s, c);
    var n := |pieces| - 1;
    if n > 0 {
      assert pieces == pieces[..n] + [pieces[n]];
      JoinAppends(pieces[..n], pieces[n], c);
      assert pieces[n] in pieces;
    }
  }

  /** The characters `str.strip` removes. */
  predicate IsSpace(c: char) {
    || '\t' <= c <= '\r'
    || '\U{1C}' <= c <= ' '
    || c in {'\U{85}', '\U{A0}', '\U{1680}', '\U{2028}', '\U{2029}', '\U{202F}', '\U{205F}', '\U{3000}'}
    || '\U{2000}' <= c <= '\U{200A}'
  }

  function StripLeft(s: string): string {
    if s != "" && IsSpace(s[0]) then StripLeft(s[1..]) else s
  }

  function StripRight(s: string): string {
    if s != "" && IsSpace(s[|s| - 1]) then StripRight(s[..|s| - 1]) else s
  }

  /** `s.strip()`. */
  function Strip(s: string): string {
    StripRight(StripLeft(s))
  }

  /** What stripping leaves: the text with nothing but spaces cut from its ends, and
      none at its own. */
  lemma StripIs(s: string) returns (before: string, after: string)
    ensures s == before + Strip(s) + after
    ensures (forall c :: c in before ==> IsSpace(c)) && (forall c :: c in after ==> IsSpace(c))
    ensures Strip(s) != "" ==> !IsSpace(Strip(s)[0]) && !IsSpace(Strip(s)[|Strip(s)| - 1])
  {
    before := StripLeftIs(s);
    after := StripRightIs(StripLeft(s));
    var left := StripLeft(s);
    assert left == Strip(s) + after;
    assert Strip(s) != "" ==> Strip(s)[0] == left[0];
  }

  lemma {:induction false} StripLeftIs(s: string) returns (before: string)
    ensures s == before + StripLeft(s) && (forall c :: c in before ==> IsSpace(c))
    ensures StripLeft(s) != "" ==> !IsSpace(StripLeft(s)[0])
  {
    before := "";
    if s != "" && IsSpace(s[0]) {
      var rest := StripLeftIs(s[1..]);
      before := [s[0]] + rest;
    }
  }

  lemma {:induction false} StripRightIs(s: string) returns (after: string)
    ensures s == StripRight(s) + after && (forall c :: c in after ==> IsSpace(c))
    ensures StripRight(s) != "" ==> !IsSpace(StripRight(s)[|StripRight(s)| - 1])
  {
    after := "";
    if s != "" && IsSpace(s[|s| - 1]) {
      var rest := StripRightIs(s[..|s| - 1]);
      after := rest + [s[|s| - 1]];
    }
  }

  lemma StripPlain(s: string)
    requires s != "" && !IsSpace(s[0]) && !IsSpace(s[|s| - 1])
    ensures Strip(s) == s
  {
  }

  lemma {:induction false} StripLeftKeeps(s: string, c: char)
    requires c in s && !IsSpace(c)
    ensures c in StripLeft(s)
  {
    if IsSpace(s[0]) {
      assert s == [s[0]] + s[1..];
      StripLeftKeeps(s[1..], c);
    }
  }

  lemma {:induction false} StripRightKeeps(s: string, c: char)
    requires c in s && !IsSpace(c)
    ensures c in StripRight(s)
  {
    var n := |s| - 1;
    if IsSpace(s[n]) {
      assert s == s[..n] + [s[n]];
      StripRightKeeps(s[..n], c);
    }
  }

  /** The order of `sorted` on strings: by code point, a prefix first. */
  predicate Before(a: string, b: string) {
    if a == "" then b != ""
    else b != "" && (a[0] < b[0] || (a[0] == b[0] && Before(a[1..], b[1..])))
  }

  /** Said without recursion: at the first place they differ `a` has the smaller
      character, or `a` is a proper prefix of `b`. */
  lemma {:induction false} BeforeIsLexicographic(a: string, b: string)
    ensures Before(a, b) <==> exists k: nat :: DiffersAt(a, b, k)
  {
    if a == "" {
      assert b != "" ==> DiffersAt(a, b, 0);
    } else if b == "" {
    } else if a[0] != b[0] {
      assert a[0] < b[0] ==> DiffersAt(a, b, 0);
      assert forall k: nat :: DiffersAt(a, b, k) ==> k == 0;
    } else {
      BeforeIsLexicographic(a[1..], b[1..]);
      if k: nat :| DiffersAt(a[1..], b[1..], k) {
        assert a[..k + 1] == [a[0]] + a[1..][..k] && b[..k + 1] == [b[0]] + b[1..][..k];
        assert DiffersAt(a, b, k + 1);
      }
      if k: nat :| DiffersAt(a, b, k) {
        assert k > 0;
        assert a[1..][..k - 1] == a[..k][1..] && b[1..][..k - 1] == b[..k][1..];
        assert DiffersAt(a[1..], b[1..], k - 1);
      }
    }
  }

  ghost predicate DiffersAt(a: string, b: string, k: nat) {
    k <= |a| && k < |b| && a[..k] == b[..k] && (k == |a| || a[k] < b[k])
  }

  lemma {:induction false} BeforeTotal(a: string, b: string)
    ensures a == b || Before(a, b) || Before(b, a)
    ensures !(Before(a, b) && Before(b, a)) && !(a == b && Before(a, b))
  {
    if a != "" && b != "" {
      BeforeTotal(a[1..], b[1..]);
      assert a == [a[0]] + a[1..] && b == [b[0]] + b[1..];
    }
  }

  lemma {:induction false} BeforeTransitive(a: string, b: string, c: string)
    requires Before(a, b) && Before(b, c)
    ensures Before(a, c)
  {
    if a != "" && a[0] == b[0] && b[0] == c[0] {
      BeforeTransitive(a[1..], b[1..], c[1..]);
    }
  }
}
