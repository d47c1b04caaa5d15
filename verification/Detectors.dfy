/**
 * The `detectors` column of an auto rule: the comma-separated, sorted set of the
 * detectors that ever wrote the row, and the merge every write makes
 * (`_merge_detector_names`, src/django_waf/services/anomaly_detector.py).
 */
module Detectors {
  import opened Text

  /** The names a value stands for. */
  ghost function Parsed(value: string): set<string> {
    set name | name in Split(value, ',') && name != ""
  }

  /** `name in value.split(",")`, the test the promotion makes. */
  predicate Mentions(value: string, name: string) { name in Split(value, ',') }

  /** Strictly increasing: sorted and without repetition. */
  ghost predicate Increasing(names: seq<string>) {
    names == [] || (Increasing(names[1..]) && forall n :: n in names[1..] ==> Before(names[0], n))
  }

  /** Adding one name to a sorted set of names. */
  function Insert(name: string, names: seq<string>): seq<string> {
    if names == [] || Before(name, names[0]) then [name] + names
    else if name == names[0] then names
    else [names[0]] + Insert(name, names[1..])
  }

  /** `sorted({piece for piece in pieces if piece})`. */
  function SortedNames(pieces: seq<string>): seq<string> {
    if pieces == [] then []
    else if pieces[0] == "" then SortedNames(pieces[1..])
    else Insert(pieces[0], SortedNames(pieces[1..]))
  }

  /** `_merge_detector_names`. */
  function Merge(existing: string, name: string): string {
    var names := SortedNames(Split(existing, ','));
    Join(if name == "" then names else Insert(name, names), ',')
  }

  lemma {:induction false} InsertIsUnion(name: string, names: seq<string>)
    requires Increasing(names)
    ensures Increasing(Insert(name, names))
    ensures forall n :: n in Insert(name, names) <==> n == name || n in names
  {
    if names == [] {
    } else if Before(name, names[0]) {
      assert ([name] + names)[1..] == names;
      forall n | n in names ensures Before(name, n) {
        if n != names[0] {
          assert names == [names[0]] + names[1..];
          BeforeTransitive(name, names[0], n);
        }
      }
    } else if name != names[0] {
      BeforeTotal(name, names[0]);
      InsertIsUnion(name, names[1..]);
      var tail := Insert(name, names[1..]);
      assert ([names[0]] + tail)[1..] == tail;
      assert names == [names[0]] + names[1..];
    }
  }

  lemma {:induction false} SortedNamesAre(pieces: seq<string>)
    ensures Increasing(SortedNames(pieces))
    ensures forall n :: n in SortedNames(pieces) <==> n in pieces && n != ""
  {
    if pieces != [] {
      SortedNamesAre(pieces[1..]);
      assert pieces == [pieces[0]] + pieces[1..];
      if pieces[0] != "" {
        InsertIsUnion(pieces[0], SortedNames(pieces[1..]));
      }
    }
  }

  /** A sorted list without repetition is determined by what is in it. */
  lemma {:induction false} IncreasingIsCanonical(a: seq<string>, b: seq<string>)
    requires Increasing(a) && Increasing(b)
    requires forall n :: n in a <==> n in b
    ensures a == b
  {
    assert (a == [] || a[0] in b) && (b == [] || b[0] in a);
    if a != [] && b != [] {
      assert a == [a[0]] + a[1..] && b == [b[0]] + b[1..];
      assert a[0] in b && b[0] in a;
      BeforeTotal(a[0], b[0]);
      assert a[0] == b[0];
      forall n ensures n in a[1..] <==> n in b[1..] {
        BeforeTotal(a[0], n);
        assert n in a <==> n in b;
      }
      IncreasingIsCanonical(a[1..], b[1..]);
    }
  }

  /** The pieces of joined names: the pieces of each of them. */
  lemma {:induction false} PiecesOfJoin(names: seq<string>, piece: string)
    ensures piece != "" ==> (piece in Split(Join(names, ','), ',') <==> exists n :: n in names && piece in Split(n, ','))
  {
    if names == [] {
    } else if |names| == 1 {
      assert names[0] in names;
    } else {
      PiecesOfJoin(names[1..], piece);
      SplitConcat(names[0], Join(names[1..], ','), ',');
      assert names == [names[0]] + names[1..];
    }
  }

  /** The parsed set after a merge is the old set and the name, exactly, for
      every value the column can hold and every name; a name that itself holds
      commas counts as the names it splits into. */
  lemma MergeIsUnion(existing: string, name: string)
    ensures Parsed(Merge(existing, name)) == Parsed(existing) + Parsed(name)
  {
    var pieces := Split(existing, ',');
    SortedNamesAre(pieces);
    var names := SortedNames(pieces);
    InsertIsUnion(name, names);
    var merged := if name == "" then names else Insert(name, names);
    forall piece ensures piece in Parsed(Merge(existing, name)) <==> piece in Parsed(existing) + Parsed(name) {
      PiecesOfJoin(merged, piece);
      if piece != "" && piece in Parsed(Merge(existing, name)) {
        var n :| n in merged && piece in Split(n, ',');
        if n != name {
          SplitPlain(n, ',');
        }
      }
      if piece in Parsed(existing) {
        SplitPlain(piece, ',');
        assert piece in merged && piece in Split(piece, ',');
      }
      if piece in Parsed(name) {
        assert name in merged;
      }
    }
  }

  /** For the plain names detectors have, that is the old set and the name; and
      the promotion's own test then finds exactly what the set holds. */
  lemma MergePlain(existing: string, name: string)
    requires Without(name, ',') && name != ""
    ensures Parsed(Merge(existing, name)) == Parsed(existing) + {name}
    ensures forall n :: n != "" ==> (Mentions(Merge(existing, name), n) <==> n == name || Mentions(existing, n))
  {
    MergeIsUnion(existing, name);
    SplitPlain(name, ',');
    assert Parsed(name) == {name};
    forall n | n != "" ensures Mentions(Merge(existing, name), n) <==> n == name || Mentions(existing, n) {
      assert Mentions(existing, n) <==> n in Parsed(existing);
      assert Mentions(Merge(existing, name), n) <==> n in Parsed(Merge(existing, name));
    }
  }

  /** The stored value does not depend on the order detectors wrote in, nor on
      how often. */
  lemma MergeOrderIsFree(existing: string, a: string, b: string)
    requires Without(a, ',') && Without(b, ',') && a != "" && b != ""
    ensures Merge(Merge(existing, a), b) == Merge(Merge(existing, b), a)
    ensures Merge(Merge(existing, a), a) == Merge(existing, a)
  {
    MergeCanonical(Merge(existing, a), b);
    MergeCanonical(Merge(existing, b), a);
    MergeCanonical(Merge(existing, a), a);
    MergeCanonical(existing, a);
    MergePlain(existing, a);
    MergePlain(existing, b);
    MergePlain(Merge(existing, a), b);
    MergePlain(Merge(existing, b), a);
    MergePlain(Merge(existing, a), a);
    var ab, ba := Names(Merge(Merge(existing, a), b)), Names(Merge(Merge(existing, b), a));
    IncreasingIsCanonical(ab, ba);
    IncreasingIsCanonical(Names(Merge(Merge(existing, a), a)), Names(Merge(existing, a)));
  }

  ghost function Names(value: string): seq<string> { SortedNames(Split(value, ',')) }

  /** A merged value is the joined list of its own names. */
  lemma MergeCanonical(existing: string, name: string)
    requires Without(name, ',') && name != ""
    ensures Merge(existing, name) == Join(Names(Merge(existing, name)), ',')
    ensures Increasing(Names(Merge(existing, name)))
    ensures forall n :: n in Names(Merge(existing, name)) <==> n in Parsed(Merge(existing, name))
  {
    var names := SortedNames(Split(existing, ','));
    SortedNamesAre(Split(existing, ','));
    InsertIsUnion(name, names);
    var merged := Insert(name, names);
    assert merged != [];
    SplitJoin(merged, ',');
    SortedNamesAre(merged);
    IncreasingIsCanonical(SortedNames(merged), merged);
  }
}
