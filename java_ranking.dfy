/**
 * `JavaGuard._sortValidJavaArray`: valid JVMs are ordered best first by
 * the comparator passed to `Array.prototype.sort`. Higher versions come
 * first; at equal versions a path without `jdk` (any case) comes first.
 *
 * The comparator is not a consistent order (two equal-version JRE paths
 * each claim to come first), so the sort is specified by a rank key the
 * comparator agrees with wherever the keys differ.
 */
module JavaRanking {
  import opened JsRuntime
  import opened JavaVersion
  import opened JvmProperties

  /** A validated JVM: the meta object of the properties scan with its `execPath`. */
  datatype JavaResult = JavaResult(meta: JvmMeta, execPath: string)

  /** `execPath.toLowerCase().indexOf('jdk') > -1` */
  predicate IsJdk(execPath: string) {
    Contains(ToLower(execPath), "jdk")
  }

  /** `x > y ? -1 : 1` */
  function Descending(x: JsNum, y: JsNum): int {
    if Gt(x, y) then -1 else 1
  }

  /** The same-version branch: JRE before JDK, two JDKs tie, and a JRE always claims first place. */
  function JrePriority(a: JavaResult, b: JavaResult): int {
    if IsJdk(a.execPath) then (if IsJdk(b.execPath) then 0 else 1) else -1
  }

  /** Equal majors: the first pair of fields, then the second, then the JRE rule. */
  function Tiebreak(a1: JsNum, b1: JsNum, a2: JsNum, b2: JsNum, a: JavaResult, b: JavaResult): int {
    if StrictEq(a1, b1) then
      if StrictEq(a2, b2) then JrePriority(a, b) else Descending(a2, b2)
    else Descending(a1, b1)
  }

  /**
   * The comparator. Reading `version.major` of a result without a version
   * throws. Below major 9 the update and build decide, from 9 on the minor
   * and revision.
   */
  function Compare(a: JavaResult, b: JavaResult): Result<int, TypeError> {
    if a.meta.version.None? || b.meta.version.None? then Err(ReadOfUndefined)
    else
      var va, vb := a.meta.version.value, b.meta.version.value;
      if StrictEq(va.major, vb.major) then
        if Lt(va.major, Num(9)) then Ok(Tiebreak(va.Update(), vb.Update(), va.build, vb.build, a, b))
        else Ok(Tiebreak(va.Minor(), vb.Minor(), va.Revision(), vb.Revision(), a, b))
      else Ok(Descending(va.major, vb.major))
  }

  // ---------------------------------------------------------------------
  // The rank key

  /** `(major, update or minor, build or revision, not a JDK)`, compared from the left. */
  datatype Rank = Rank(major: JsNum, first: JsNum, second: JsNum, jre: bool)

  function Key(c: JavaResult): Rank {
    var jre := !IsJdk(c.execPath);
    if c.meta.version.None? then Rank(Undefined, Undefined, Undefined, jre)
    else
      var v := c.meta.version.value;
      if Lt(v.major, Num(9)) then Rank(v.major, v.Update(), v.build, jre)
      else Rank(v.major, v.Minor(), v.Revision(), jre)
  }

  /** A number ranks above anything that is not a number. */
  predicate Above(x: JsNum, y: JsNum) {
    x.Num? && (y.Num? ==> x.n > y.n)
  }

  /** Two numbers that are equal, or two values that are not numbers. */
  predicate Level(x: JsNum, y: JsNum) {
    x.Num? == y.Num? && (x.Num? ==> x.n == y.n)
  }

  /** Strict descending-key order: `a` belongs before `b`. */
  predicate Outranks(a: Rank, b: Rank) {
    Above(a.major, b.major) || (Level(a.major, b.major) &&
      (Above(a.first, b.first) || (Level(a.first, b.first) &&
        (Above(a.second, b.second) || (Level(a.second, b.second) && a.jre && !b.jre)))))
  }

  /** Every field the comparator reads is a number. */
  predicate Ranked(c: JavaResult) {
    c.meta.version.Some? && Key(c).major.Num? && Key(c).first.Num? && Key(c).second.Num?
  }

  /** `Outranks` is a strict weak order. */
  lemma OutranksOrder(a: Rank, b: Rank, c: Rank)
    ensures !Outranks(a, a)
    ensures Outranks(a, b) ==> !Outranks(b, a)
    ensures !Outranks(a, b) && !Outranks(b, c) ==> !Outranks(a, c)
  {
  }

  /**
   * The comparator agrees with the key: wherever one key outranks the
   * other it puts that result first, and at equal keys two JDKs tie while
   * two JREs each claim first place.
   */
  lemma CompareAgreesWithKey(a: JavaResult, b: JavaResult)
    requires Ranked(a) && Ranked(b)
    ensures Outranks(Key(a), Key(b)) ==> Compare(a, b) == Ok(-1)
    ensures Outranks(Key(b), Key(a)) ==> Compare(a, b) == Ok(1)
    ensures Key(a) == Key(b) ==> Compare(a, b) == Ok(if Key(a).jre then -1 else 0)
    ensures Outranks(Key(a), Key(b)) || Outranks(Key(b), Key(a)) || Key(a) == Key(b)
  {
  }

  /** The comparator is not antisymmetric: two equal-version JRE paths each come first. */
  lemma CompareNotAntisymmetric(a: JavaResult, b: JavaResult)
    requires Ranked(a) && Ranked(b) && Key(a) == Key(b) && !IsJdk(a.execPath)
    ensures Compare(a, b) == Ok(-1) && Compare(b, a) == Ok(-1)
  {
    CompareAgreesWithKey(a, b);
    CompareAgreesWithKey(b, a);
  }

  /**
   * Where the minor (or update) or the revision (or build) is `NaN`, as for
   * a GA version such as `17+35`, two results of the same version each
   * answer `1`: `NaN === NaN` is false, so neither is put first and the JRE
   * rule is never reached. The key, which holds two `NaN`s level, does not
   * capture this.
   */
  lemma CompareNaNFields(a: JavaResult, b: JavaResult)
    requires a.meta.version.Some? && a.meta.version == b.meta.version
    requires Key(a).major.Num? && (Key(a).first.NaN? || Key(a).second.NaN?)
    ensures Compare(a, b) == Ok(1) && Compare(b, a) == Ok(1)
  {
  }

  /** The comparator throws exactly when one of the two has no version. */
  lemma CompareThrows(a: JavaResult, b: JavaResult)
    ensures Compare(a, b).Err? <==> a.meta.version.None? || b.meta.version.None?
  {
  }

  // ---------------------------------------------------------------------
  // The sort

  /** No later element outranks an earlier one. */
  predicate Sorted(s: seq<JavaResult>) {
    forall i, j :: 0 <= i < j < |s| ==> !Outranks(Key(s[j]), Key(s[i]))
  }

  /** `x` goes before the first element that does not outrank it. */
  function Insert(x: JavaResult, ys: seq<JavaResult>): seq<JavaResult> {
    if ys == [] || !Outranks(Key(ys[0]), Key(x)) then [x] + ys
    else [ys[0]] + Insert(x, ys[1..])
  }

  /** A stable insertion sort by descending key. */
  function SortByRank(s: seq<JavaResult>): seq<JavaResult> {
    if s == [] then [] else Insert(s[0], SortByRank(s[1..]))
  }

  /** In a sorted sequence whose head does not outrank `x`, no element does. */
  lemma NoneOutranks(x: JavaResult, ys: seq<JavaResult>)
    requires Sorted(ys) && (ys == [] || !Outranks(Key(ys[0]), Key(x)))
    ensures forall z :: z in ys ==> !Outranks(Key(z), Key(x))
  {
    forall z | z in ys ensures !Outranks(Key(z), Key(x)) {
      var j :| 0 <= j < |ys| && ys[j] == z;
      if j > 0 {
        assert !Outranks(Key(ys[j]), Key(ys[0]));
      }
      OutranksOrder(Key(z), Key(ys[0]), Key(x));
    }
  }

  /** Putting `x` in front of a sorted sequence whose head does not outrank it keeps it sorted. */
  lemma InsertInFront(x: JavaResult, ys: seq<JavaResult>)
    requires Sorted(ys) && (ys == [] || !Outranks(Key(ys[0]), Key(x)))
    ensures Sorted([x] + ys)
  {
    NoneOutranks(x, ys);
    InsertBehind(x, ys);
  }

  /** Putting `h` in front of a sorted sequence none of whose elements outranks it keeps it sorted. */
  lemma InsertBehind(h: JavaResult, rest: seq<JavaResult>)
    requires Sorted(rest)
    requires forall z :: z in rest ==> !Outranks(Key(z), Key(h))
    ensures Sorted([h] + rest)
  {
    var r := [h] + rest;
    forall j | 0 < j < |r| ensures !Outranks(Key(r[j]), Key(r[0])) {
      assert r[j] in rest;
    }
    forall i, j | 0 < i < j < |r| ensures !Outranks(Key(r[j]), Key(r[i])) {
      assert r[i] == rest[i - 1] && r[j] == rest[j - 1];
    }
  }

  lemma SortedTail(ys: seq<JavaResult>)
    requires Sorted(ys) && ys != []
    ensures Sorted(ys[1..])
    ensures forall z :: z in ys[1..] ==> !Outranks(Key(z), Key(ys[0]))
  {
    var tail := ys[1..];
    forall i, j | 0 <= i < j < |tail| ensures !Outranks(Key(tail[j]), Key(tail[i])) {
      assert tail[i] == ys[i + 1] && tail[j] == ys[j + 1];
    }
    forall z | z in tail ensures !Outranks(Key(z), Key(ys[0])) {
      var k :| 0 <= k < |tail| && tail[k] == z;
      assert z == ys[k + 1];
    }
  }

  lemma {:induction false} InsertSorted(x: JavaResult, ys: seq<JavaResult>)
    requires Sorted(ys)
    ensures multiset(Insert(x, ys)) == multiset(ys) + multiset{x}
    ensures Sorted(Insert(x, ys))
    decreases |ys|
  {
    if ys == [] || !Outranks(Key(ys[0]), Key(x)) {
      InsertInFront(x, ys);
    } else {
      var tail := ys[1..];
      SortedTail(ys);
      InsertSorted(x, tail);
      var rest := Insert(x, tail);
      assert ys == [ys[0]] + tail;
      forall z | z in rest ensures !Outranks(Key(z), Key(ys[0])) {
        assert z in multiset(rest);
        if z == x {
          OutranksOrder(Key(ys[0]), Key(x), Key(x));
        } else {
          assert z in multiset(tail);
        }
      }
      InsertBehind(ys[0], rest);
    }
  }

  /** The sort returns a permutation of its input, ordered by descending key. */
  lemma {:induction false} SortByRankCorrect(s: seq<JavaResult>)
    ensures multiset(SortByRank(s)) == multiset(s)
    ensures Sorted(SortByRank(s))
  {
    if s != [] {
      SortByRankCorrect(s[1..]);
      InsertSorted(s[0], SortByRank(s[1..]));
      assert s == [s[0]] + s[1..];
    }
  }

  /** The first element of the sorted array is outranked by none of the input. */
  lemma SortedHeadIsBest(s: seq<JavaResult>)
    requires s != []
    ensures SortByRank(s) != []
    ensures forall c :: c in s ==> !Outranks(Key(c), Key(SortByRank(s)[0]))
  {
    SortByRankCorrect(s);
    var r := SortByRank(s);
    assert |r| == |s| by {
      assert |multiset(r)| == |multiset(s)|;
    }
    forall c | c in s ensures !Outranks(Key(c), Key(r[0])) {
      assert c in multiset(r);
      var k :| 0 <= k < |r| && r[k] == c;
      if k > 0 {
        assert !Outranks(Key(r[k]), Key(r[0]));
      } else {
        OutranksOrder(Key(c), Key(c), Key(c));
      }
    }
  }

  /**
   * `_sortValidJavaArray(validArr)`. With two or more entries every entry
   * takes part in a comparison, so one without a version throws; a single
   * entry is never compared.
   */
  function SortValidJavaArray(validArr: seq<JavaResult>): Result<seq<JavaResult>, TypeError> {
    if |validArr| >= 2 && exists c :: c in validArr && c.meta.version.None? then Err(ReadOfUndefined)
    else Ok(SortByRank(validArr))
  }

  /** The sort fails exactly as described, and otherwise returns the input reordered best first. */
  lemma SortValidJavaArrayCorrect(validArr: seq<JavaResult>)
    ensures SortValidJavaArray(validArr).Err? <==>
      |validArr| >= 2 && exists c :: c in validArr && c.meta.version.None?
    ensures SortValidJavaArray(validArr).Ok? ==>
      multiset(SortValidJavaArray(validArr).value) == multiset(validArr) &&
      Sorted(SortValidJavaArray(validArr).value)
  {
    SortByRankCorrect(validArr);
  }
}
