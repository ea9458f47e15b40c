/** The weighted transaction order and the ordered set built on it (ordering.rs). */
module Ordering {
  import opened Prelude

  type TxId = Bytes

  datatype Cmp = Less | Equal | Greater

  datatype WeightedTxId = WeightedTxId(
    txId: TxId, weight: int, feePerFactor: int, size: nat, created: nat)

  /** Fee per byte scaled by 1024; an empty transaction counts as zero. */
  function FeePerFactor(fee: nat, size: nat): int {
    if size == 0 then 0 else (fee * 1024) / size
  }

  /** The fee is the weight times the size, scaled by 1024 and rounded down. */
  lemma FeePerFactorValue(fee: nat, size: nat)
    ensures var w := FeePerFactor(fee, size);
      if size == 0 then w == 0 else 0 <= w && w * size <= fee * 1024 < (w + 1) * size
  {
    if size > 0 {
      var w := fee * 1024 / size;
      assert w * size <= fee * 1024 < w * size + size;
    }
  }

  function NewWeighted(txId: TxId, fee: nat, size: nat, created: nat): WeightedTxId {
    var fpf := FeePerFactor(fee, size);
    WeightedTxId(txId, fpf, fpf, size, created)
  }

  function CompareInts(a: int, b: int): Cmp {
    if a < b then Less else if a == b then Equal else Greater
  }

  /** Byte strings compare lexicographically, a proper prefix first. */
  function CompareIds(a: Bytes, b: Bytes): Cmp {
    if a == [] then (if b == [] then Equal else Less)
    else if b == [] then Greater
    else if a[0] == b[0] then CompareIds(a[1..], b[1..])
    else CompareInts(a[0], b[0])
  }

  /** Heavier first; equal weights are ordered by id. */
  function Compare(a: WeightedTxId, b: WeightedTxId): Cmp {
    match CompareInts(b.weight, a.weight)
    case Equal => CompareIds(a.txId, b.txId)
    case other => other
  }

  function Flip(c: Cmp): Cmp {
    match c
    case Less => Greater
    case Equal => Equal
    case Greater => Less
  }

  lemma {:induction false} CompareIdsLaws(a: Bytes, b: Bytes)
    ensures CompareIds(a, b) == Equal <==> a == b
    ensures CompareIds(b, a) == Flip(CompareIds(a, b))
  {
    if a != [] && b != [] {
      CompareIdsLaws(a[1..], b[1..]);
      if a[0] == b[0] {
        assert a == [a[0]] + a[1..] && b == [b[0]] + b[1..];
      }
    }
  }

  lemma {:induction false} CompareIdsTransitive(a: Bytes, b: Bytes, c: Bytes)
    requires CompareIds(a, b) == Less && CompareIds(b, c) == Less
    ensures CompareIds(a, c) == Less
  {
    if a != [] && b != [] && c != [] && a[0] == b[0] == c[0] {
      CompareIdsTransitive(a[1..], b[1..], c[1..]);
    }
  }

  /** `a` ends, or has the smaller byte, where the two first differ. */
  ghost predicate DiffersBelow(a: Bytes, b: Bytes, k: nat) {
    k <= |a| && k < |b| && a[..k] == b[..k] && (k == |a| || a[k] < b[k])
  }

  lemma HeadsInOrder(a: Bytes, b: Bytes, k: nat)
    requires DiffersBelow(a, b, k) && a != []
    ensures a[0] <= b[0]
  {
    if k > 0 { assert a[..k][0] == a[0] && b[..k][0] == b[0]; }
  }

  /** Ids compare by their first difference; a proper prefix comes first. */
  lemma {:induction false} FirstDifferenceDecides(a: Bytes, b: Bytes)
    ensures CompareIds(a, b) == Less <==> exists k: nat :: DiffersBelow(a, b, k)
  {
    if a != [] && b != [] && a[0] == b[0] {
      var s, t := a[1..], b[1..];
      FirstDifferenceDecides(s, t);
      assert a == [a[0]] + s && b == [b[0]] + t;
      if j: nat :| DiffersBelow(s, t, j) {
        assert a[..j + 1] == [a[0]] + s[..j] && b[..j + 1] == [b[0]] + t[..j];
        assert DiffersBelow(a, b, j + 1);
      }
      if k: nat :| DiffersBelow(a, b, k) {
        assert k > 0;
        assert s[..k - 1] == a[..k][1..] && t[..k - 1] == b[..k][1..];
        assert DiffersBelow(s, t, k - 1);
      }
    } else if a == [] && b != [] {
      assert DiffersBelow(a, b, 0);
    } else if a != [] && b != [] {
      if a[0] < b[0] { assert DiffersBelow(a, b, 0); }
      if k: nat :| DiffersBelow(a, b, k) {
        HeadsInOrder(a, b, k);
      }
    }
  }

  /** `Ord` for weighted ids is a strict total order on (weight, id). */
  lemma CompareIsTotalOrder(a: WeightedTxId, b: WeightedTxId, c: WeightedTxId)
    ensures Compare(a, b) == Equal <==> a.weight == b.weight && a.txId == b.txId
    ensures Compare(b, a) == Flip(Compare(a, b))
    ensures Compare(a, b) == Less && Compare(b, c) == Less ==> Compare(a, c) == Less
  {
    CompareIdsLaws(a.txId, b.txId);
    CompareIdsLaws(b.txId, a.txId);
    if CompareIds(a.txId, b.txId) == Less && CompareIds(b.txId, c.txId) == Less {
      CompareIdsTransitive(a.txId, b.txId, c.txId);
    }
  }

  predicate Before(a: WeightedTxId, b: WeightedTxId) {
    Compare(a, b) == Less
  }

  /** A `BTreeSet` is its iteration order: strictly ascending. */
  ghost predicate Sorted(s: seq<WeightedTxId>) {
    forall i, j :: 0 <= i < j < |s| ==> Before(s[i], s[j])
  }

  ghost predicate HasKey(s: seq<WeightedTxId>, w: WeightedTxId) {
    exists x :: x in s && Compare(w, x) == Equal
  }

  lemma SortedCons(x: WeightedTxId, s: seq<WeightedTxId>)
    requires Sorted(s)
    requires forall y :: y in s ==> Before(x, y)
    ensures Sorted([x] + s)
  {
    var r := [x] + s;
    forall i, j | 0 <= i < j < |r| ensures Before(r[i], r[j]) {
      assert r[j] == s[j - 1] && s[j - 1] in s;
      if i > 0 { assert r[i] == s[i - 1]; }
    }
  }

  /** Insertion keeps the stored element when one with an equal key is present. */
  function Insert(s: seq<WeightedTxId>, w: WeightedTxId): (r: seq<WeightedTxId>)
    requires Sorted(s)
    ensures Sorted(r)
    ensures HasKey(s, w) ==> r == s
    ensures !HasKey(s, w) ==> forall x :: x in r <==> x == w || x in s
  {
    if s == [] then
      [w]
    else
      match Compare(w, s[0])
      case Less =>
        assert forall x :: x in s ==> Before(w, x) by {
          forall x | x in s ensures Before(w, x) { CompareIsTotalOrder(w, s[0], x); }
        }
        [w] + s
      case Equal => s
      case Greater =>
        assert s == [s[0]] + s[1..];
        assert Before(s[0], w) by { CompareIsTotalOrder(w, s[0], w); }
        var rest := Insert(s[1..], w);
        assert forall x :: x in rest ==> Before(s[0], x);
        SortedCons(s[0], rest);
        [s[0]] + rest
  }

  /** Removal drops the element whose key equals that of `w`, if there is one. */
  function Remove(s: seq<WeightedTxId>, w: WeightedTxId): (r: seq<WeightedTxId>)
    requires Sorted(s)
    ensures Sorted(r)
    ensures forall x :: x in r <==> x in s && Compare(w, x) != Equal
  {
    if s == [] then
      []
    else if Compare(w, s[0]) == Equal then
      assert s == [s[0]] + s[1..];
      assert forall x :: x in s[1..] ==> Compare(w, x) != Equal by {
        forall x | x in s[1..] ensures Compare(w, x) != Equal {
          CompareIsTotalOrder(w, s[0], x);
          CompareIsTotalOrder(s[0], x, w);
          CompareIsTotalOrder(w, x, w);
        }
      }
      s[1..]
    else
      assert s == [s[0]] + s[1..];
      var rest := Remove(s[1..], w);
      SortedCons(s[0], rest);
      [s[0]] + rest
  }
}
