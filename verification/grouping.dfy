/** `groupby([...]).sum()` and `.mean()` followed by `reset_index()`: one
    output row per distinct key, ordered ascending by key as pandas' default
    sorted group-by produces, holding the aggregate of the rows with that
    key. */
module Grouping {

  import opened Text

  /** The second grouping column: the day of the year (year report) or the
      time of day `zeit` (day and week reports). */
  datatype Slot = DaySlot(day: int) | ZeitSlot(zeit: string)

  /** A group-by key: (year, slot). */
  datatype GroupKey = GroupKey(year: int, slot: Slot)

  /** A key with one value: a projected input row before grouping, or one
      aggregated row after it. */
  datatype Entry = Entry(key: GroupKey, value: real)

  /** Day numbers compare as numbers and times of day as strings. Within one
      table the slots are all of one kind; putting days first only makes the
      order total. */
  predicate SlotLess(a: Slot, b: Slot) {
    match a
    case DaySlot(x) => (match b case DaySlot(y) => x < y case ZeitSlot(_) => true)
    case ZeitSlot(x) => (match b case DaySlot(_) => false case ZeitSlot(y) => LexLess(x, y))
  }

  /** Tuple order on (year, slot). */
  predicate KeyLess(a: GroupKey, b: GroupKey) {
    a.year < b.year || (a.year == b.year && SlotLess(a.slot, b.slot))
  }

  lemma KeyLessIrreflexive(a: GroupKey)
    ensures !KeyLess(a, a)
  {
    if a.slot.ZeitSlot? {
      LexLessIrreflexive(a.slot.zeit);
    }
  }

  lemma KeyLessTransitive(a: GroupKey, b: GroupKey, c: GroupKey)
    requires KeyLess(a, b) && KeyLess(b, c)
    ensures KeyLess(a, c)
  {
    if a.year == b.year == c.year && a.slot.ZeitSlot? && b.slot.ZeitSlot? && c.slot.ZeitSlot? {
      LexLessTransitive(a.slot.zeit, b.slot.zeit, c.slot.zeit);
    }
  }

  lemma KeyLessAsymmetric(a: GroupKey, b: GroupKey)
    requires KeyLess(a, b)
    ensures !KeyLess(b, a)
  {
    KeyLessIrreflexive(a);
    if KeyLess(b, a) {
      KeyLessTransitive(a, b, a);
    }
  }

  lemma KeyLessTotal(a: GroupKey, b: GroupKey)
    ensures a == b || KeyLess(a, b) || KeyLess(b, a)
  {
    if a.slot.ZeitSlot? && b.slot.ZeitSlot? {
      LexLessTotal(a.slot.zeit, b.slot.zeit);
    }
  }

  /** Strictly ascending keys; in particular no key occurs twice. */
  predicate Increasing(ks: seq<GroupKey>) {
    forall i, j :: 0 <= i < j < |ks| ==> KeyLess(ks[i], ks[j])
  }

  lemma IncreasingDistinct(ks: seq<GroupKey>, i: int, j: int)
    requires Increasing(ks) && 0 <= i < |ks| && 0 <= j < |ks| && i != j
    ensures ks[i] != ks[j]
  {
    if i < j {
      KeyLessIrreflexive(ks[i]);
    } else {
      KeyLessIrreflexive(ks[j]);
    }
  }

  lemma ConsIncreasing(h: GroupKey, t: seq<GroupKey>)
    requires Increasing(t)
    requires forall x :: x in t ==> KeyLess(h, x)
    ensures Increasing([h] + t)
  {
    var r := [h] + t;
    forall i, j | 0 <= i < j < |r|
      ensures KeyLess(r[i], r[j])
    {
      if i > 0 {
        assert r[i] == t[i - 1] && r[j] == t[j - 1];
      } else {
        assert r[j] in t;
      }
    }
  }

  /** Adds `k` to an ascending key list unless it is already there. */
  function Insert(ks: seq<GroupKey>, k: GroupKey): (r: seq<GroupKey>)
    requires Increasing(ks)
    ensures Increasing(r)
    ensures forall x :: x in r <==> x in ks || x == k
  {
    if |ks| == 0 then [k]
    else if k == ks[0] then ks
    else if KeyLess(k, ks[0]) then
      LessThanHead(k, ks);
      ConsIncreasing(k, ks);
      [k] + ks
    else
      KeyLessTotal(k, ks[0]);
      var rest := Insert(ks[1..], k);
      assert forall x :: x in ks <==> x == ks[0] || x in ks[1..] by {
        assert ks == [ks[0]] + ks[1..];
      }
      LessThanHead(ks[0], ks[1..]);
      ConsIncreasing(ks[0], rest);
      [ks[0]] + rest
  }

  lemma LessThanHead(k: GroupKey, ks: seq<GroupKey>)
    requires Increasing(ks) && (|ks| > 0 ==> KeyLess(k, ks[0]))
    ensures forall x :: x in ks ==> KeyLess(k, x)
  {
    forall x | x in ks
      ensures KeyLess(k, x)
    {
      var j :| 0 <= j < |ks| && ks[j] == x;
      if j > 0 {
        KeyLessTransitive(k, ks[0], x);
      }
    }
  }

  /** Some entry of `es` has key `k`. */
  predicate HasKey(es: seq<Entry>, k: GroupKey) {
    exists e :: e in es && e.key == k
  }

  /** The distinct keys of `es`, ascending. */
  function Keys(es: seq<Entry>): (ks: seq<GroupKey>)
    ensures Increasing(ks)
    ensures forall k :: k in ks <==> HasKey(es, k)
  {
    if |es| == 0 then []
    else
      var ks := Insert(Keys(es[1..]), es[0].key);
      assert forall e :: e in es <==> e == es[0] || e in es[1..] by {
        assert es == [es[0]] + es[1..];
      }
      ks
  }

  /** Sum of the values of the entries with key `k`. */
  function KeySum(es: seq<Entry>, k: GroupKey): real {
    if |es| == 0 then 0.0
    else (if es[0].key == k then es[0].value else 0.0) + KeySum(es[1..], k)
  }

  /** Number of entries with key `k`. */
  function KeyCount(es: seq<Entry>, k: GroupKey): nat {
    if |es| == 0 then 0
    else (if es[0].key == k then 1 else 0) + KeyCount(es[1..], k)
  }

  /** Sum of the values of the entries whose key satisfies `p`. */
  function SumWhere(es: seq<Entry>, p: GroupKey -> bool): real {
    if |es| == 0 then 0.0
    else (if p(es[0].key) then es[0].value else 0.0) + SumWhere(es[1..], p)
  }

  /** Strictly ascending keys over the rows of a table. */
  predicate AscendingKeys(bs: seq<Entry>) {
    forall i, j :: 0 <= i < j < |bs| ==> KeyLess(bs[i].key, bs[j].key)
  }

  /** `groupby(key).sum()`: one row per distinct key of `es`, ascending, with
      the sum of the values under that key. */
  function GroupSum(es: seq<Entry>): (bs: seq<Entry>)
    ensures AscendingKeys(bs)
    ensures forall k :: HasKey(bs, k) <==> HasKey(es, k)
    ensures forall i :: 0 <= i < |bs| ==> bs[i].value == KeySum(es, bs[i].key)
  {
    var ks := Keys(es);
    var bs := seq(|ks|, i requires 0 <= i < |ks| => Entry(ks[i], KeySum(es, ks[i])));
    TableOverKeys(bs, ks);
    bs
  }

  /** `groupby(key).mean()`: one row per distinct key of `es`, ascending;
      every group is non-empty and its value times its size is its sum. */
  function GroupMean(es: seq<Entry>): (bs: seq<Entry>)
    ensures AscendingKeys(bs)
    ensures forall k :: HasKey(bs, k) <==> HasKey(es, k)
    ensures forall i :: 0 <= i < |bs| ==>
      KeyCount(es, bs[i].key) > 0 && bs[i].value * (KeyCount(es, bs[i].key) as real) == KeySum(es, bs[i].key)
  {
    var ks := Keys(es);
    KeysCountPositive(es, ks);
    var bs := seq(|ks|, i requires 0 <= i < |ks| =>
      Entry(ks[i], KeySum(es, ks[i]) / (KeyCount(es, ks[i]) as real)));
    TableOverKeys(bs, ks);
    bs
  }

  lemma TableOverKeys(bs: seq<Entry>, ks: seq<GroupKey>)
    requires Increasing(ks) && |bs| == |ks|
    requires forall i :: 0 <= i < |bs| ==> bs[i].key == ks[i]
    ensures AscendingKeys(bs)
    ensures forall k :: HasKey(bs, k) <==> k in ks
  {
    forall k | k in ks
      ensures HasKey(bs, k)
    {
      var i :| 0 <= i < |ks| && ks[i] == k;
      assert bs[i] in bs;
    }
  }

  lemma KeysCountPositive(es: seq<Entry>, ks: seq<GroupKey>)
    requires forall k :: k in ks ==> HasKey(es, k)
    ensures forall i :: 0 <= i < |ks| ==> KeyCount(es, ks[i]) > 0
  {
    forall i | 0 <= i < |ks|
      ensures KeyCount(es, ks[i]) > 0
    {
      KeyCountPositive(es, ks[i]);
    }
  }

  lemma {:induction false} KeyCountPositive(es: seq<Entry>, k: GroupKey)
    requires HasKey(es, k)
    ensures KeyCount(es, k) > 0
    decreases |es|
  {
    if es[0].key != k {
      var e :| e in es && e.key == k;
      assert e in es[1..] by {
        assert es == [es[0]] + es[1..];
      }
      KeyCountPositive(es[1..], k);
    }
  }

  /** `es` with the entries of key `k` removed. */
  function Without(es: seq<Entry>, k: GroupKey): seq<Entry> {
    if |es| == 0 then []
    else (if es[0].key == k then [] else [es[0]]) + Without(es[1..], k)
  }

  lemma {:induction false} SplitOffKey(es: seq<Entry>, k: GroupKey, p: GroupKey -> bool)
    ensures SumWhere(es, p) == (if p(k) then KeySum(es, k) else 0.0) + SumWhere(Without(es, k), p)
    ensures forall x :: x != k ==> KeySum(Without(es, k), x) == KeySum(es, x)
    ensures forall e :: e in Without(es, k) ==> e in es && e.key != k
    decreases |es|
  {
    if |es| > 0 {
      SplitOffKey(es[1..], k, p);
      var w := Without(es[1..], k);
      if es[0].key != k {
        assert Without(es, k) == [es[0]] + w;
        assert ([es[0]] + w)[1..] == w;
      } else {
        assert Without(es, k) == w;
      }
      assert es == [es[0]] + es[1..];
    }
  }

  /** Summing per-key sums over a list of distinct keys that covers every key
      of `es` gives the same subtotal, for any selection `p` of keys, as
      summing `es` directly. */
  lemma {:induction false} BucketsPartition(ks: seq<GroupKey>, es: seq<Entry>, p: GroupKey -> bool)
    requires Increasing(ks)
    requires forall e :: e in es ==> e.key in ks
    ensures SumWhere(seq(|ks|, i requires 0 <= i < |ks| => Entry(ks[i], KeySum(es, ks[i]))), p) == SumWhere(es, p)
    decreases |ks|
  {
    var bs := seq(|ks|, i requires 0 <= i < |ks| => Entry(ks[i], KeySum(es, ks[i])));
    if |ks| > 0 {
      var k0 := ks[0];
      var w := Without(es, k0);
      SplitOffKey(es, k0, p);
      var tail := ks[1..];
      forall e | e in w
        ensures e.key in tail
      {
        var j :| 0 <= j < |ks| && ks[j] == e.key;
        assert j != 0;
        assert ks[j] == tail[j - 1];
      }
      forall j | 0 <= j < |tail|
        ensures tail[j] != k0
      {
        IncreasingDistinct(ks, 0, j + 1);
      }
      BucketsPartition(tail, w, p);
      var bw := seq(|tail|, i requires 0 <= i < |tail| => Entry(tail[i], KeySum(w, tail[i])));
      assert bs[1..] == bw;
      assert bs == [bs[0]] + bs[1..];
    }
  }

  /** Regrouping keeps every subtotal: the sums in the grouped table of the
      keys selected by `p` add up to the sum of the input rows with those
      keys. With `p` true everywhere, no row is lost or counted twice. */
  lemma GroupSumPreservesSubtotals(es: seq<Entry>, p: GroupKey -> bool)
    ensures SumWhere(GroupSum(es), p) == SumWhere(es, p)
  {
    var ks := Keys(es);
    forall e | e in es
      ensures e.key in ks
    {
      assert HasKey(es, e.key);
    }
    BucketsPartition(ks, es, p);
  }

  lemma {:induction false} SumWhereAppend(a: seq<Entry>, b: seq<Entry>, p: GroupKey -> bool)
    ensures SumWhere(a + b, p) == SumWhere(a, p) + SumWhere(b, p)
    decreases |a|
  {
    if |a| > 0 {
      assert (a + b)[1..] == a[1..] + b;
      SumWhereAppend(a[1..], b, p);
    } else {
      assert a + b == b;
    }
  }

  /** Selections that agree on the keys present give the same subtotal. */
  lemma {:induction false} SumWhereCongruent(es: seq<Entry>, p: GroupKey -> bool, q: GroupKey -> bool)
    requires forall i :: 0 <= i < |es| ==> p(es[i].key) == q(es[i].key)
    ensures SumWhere(es, p) == SumWhere(es, q)
    decreases |es|
  {
    if |es| > 0 {
      SumWhereCongruent(es[1..], p, q);
    }
  }

  lemma {:induction false} SumWhereNone(es: seq<Entry>, p: GroupKey -> bool)
    requires forall i :: 0 <= i < |es| ==> !p(es[i].key)
    ensures SumWhere(es, p) == 0.0
    decreases |es|
  {
    if |es| > 0 {
      SumWhereNone(es[1..], p);
    }
  }

  /** In a table with ascending keys, the subtotal of `p` over the rows up to
      row `i` is the subtotal of `p` restricted to keys not above row `i`'s
      key, over the whole table. */
  lemma PrefixIsKeysUpTo(bs: seq<Entry>, i: int, p: GroupKey -> bool, q: GroupKey -> bool)
    requires AscendingKeys(bs) && 0 <= i < |bs|
    requires forall k :: q(k) == (p(k) && !KeyLess(bs[i].key, k))
    ensures SumWhere(bs[..i + 1], p) == SumWhere(bs, q)
  {
    var pre, post := bs[..i + 1], bs[i + 1..];
    assert bs == pre + post;
    SumWhereAppend(pre, post, q);
    forall j | 0 <= j < |pre|
      ensures p(pre[j].key) == q(pre[j].key)
    {
      assert pre[j] == bs[j];
      KeyLessIrreflexive(bs[j].key);
      if j < i {
        KeyLessAsymmetric(bs[j].key, bs[i].key);
      }
    }
    SumWhereCongruent(pre, p, q);
    forall j | 0 <= j < |post|
      ensures !q(post[j].key)
    {
      assert post[j] == bs[i + 1 + j];
    }
    SumWhereNone(post, q);
  }
}
