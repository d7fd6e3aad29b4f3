/**
 * A JavaScript `Set` of strings, which remembers insertion order: `add`,
 * and `new Set([...a, ...b])`. A set is its elements in insertion order,
 * without duplicates.
 */
module JsSet {

  predicate NoDup(s: seq<string>) {
    forall i, j :: 0 <= i < j < |s| ==> s[i] != s[j]
  }

  /** `set.add(x)`: appended unless already present. */
  function Add(s: seq<string>, x: string): (r: seq<string>)
    ensures NoDup(s) ==> NoDup(r)
    ensures forall y :: y in r <==> y in s || y == x
    ensures |s| <= |r| && r[..|s|] == s
  {
    if x in s then s else s + [x]
  }

  /** Adding each of `xs` in turn. */
  function AddAll(s: seq<string>, xs: seq<string>): seq<string>
    decreases |xs|
  {
    if xs == [] then s else AddAll(Add(s, xs[0]), xs[1..])
  }

  /** `new Set(xs)` */
  function FromSeq(xs: seq<string>): seq<string> {
    AddAll([], xs)
  }

  /** `new Set([...a, ...b])` */
  function Union(a: seq<string>, b: seq<string>): seq<string> {
    FromSeq(a + b)
  }

  lemma {:induction false} AddAllProps(s: seq<string>, xs: seq<string>)
    ensures NoDup(s) ==> NoDup(AddAll(s, xs))
    ensures forall y :: y in AddAll(s, xs) <==> y in s || y in xs
    ensures |s| <= |AddAll(s, xs)| && AddAll(s, xs)[..|s|] == s
    decreases |xs|
  {
    if xs != [] {
      var s' := Add(s, xs[0]);
      AddAllProps(s', xs[1..]);
      assert xs == [xs[0]] + xs[1..];
      var r := AddAll(s', xs[1..]);
      assert r[..|s|] == r[..|s'|][..|s|];
    }
  }

  /** A set built from a sequence holds each of its elements once, and nothing else. */
  lemma FromSeqProps(xs: seq<string>)
    ensures NoDup(FromSeq(xs))
    ensures forall y :: y in FromSeq(xs) <==> y in xs
  {
    AddAllProps([], xs);
  }

  /** The union holds each element of either side once, and nothing else. */
  lemma UnionProps(a: seq<string>, b: seq<string>)
    ensures NoDup(Union(a, b))
    ensures forall y :: y in Union(a, b) <==> y in a || y in b
  {
    FromSeqProps(a + b);
  }

  /** A sequence without duplicates turns into a set unchanged. */
  lemma {:induction false} FromSeqOfNoDup(s: seq<string>, xs: seq<string>)
    requires NoDup(s + xs)
    ensures AddAll(s, xs) == s + xs
    decreases |xs|
  {
    if xs != [] {
      forall i | 0 <= i < |s| ensures s[i] != xs[0] {
        assert (s + xs)[i] == s[i] && (s + xs)[|s|] == xs[0];
      }
      assert s + xs == (s + [xs[0]]) + xs[1..];
      FromSeqOfNoDup(s + [xs[0]], xs[1..]);
    }
  }
}
