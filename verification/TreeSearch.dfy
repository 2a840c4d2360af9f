// Searching a sorted sequence of entries: what "largest key at most k" and "least key at
// least k" mean, and where a search of one leaf stands in the whole sequence.
module TreeSearch {
  import opened TreeModel

  // Key of the first entry, 0 for none.
  function Head(es: seq<Entry>): nat { if es == [] then 0 else es[0].key }

  // Entry k of C lies on the right side of pos in a search for the least key >= key.
  ghost predicate CeilAt(C: seq<Entry>, pos: nat, key: nat, k: nat)
    requires k < |C| && pos <= |C|
  {
    && (k < pos ==> C[k].key <= key)
    && (k >= pos ==> C[k].key >= key)
    && (C[k].key == key ==> pos < |C| && C[pos].key == key)
  }

  // Where a search for the least key >= key stands; it finds key if key is present.
  ghost predicate AtCeil(C: seq<Entry>, pos: nat, key: nat)
  {
    pos <= |C| && forall k :: 0 <= k < |C| ==> CeilAt(C, pos, key, k)
  }

  ghost predicate FloorAt(C: seq<Entry>, pos: nat, key: nat, k: nat)
    requires k < |C| && pos < |C|
  {
    && (k < pos ==> C[k].key <= key && C[pos].key <= key)
    && (k > pos ==> C[k].key >= key && (C[pos].key < key ==> C[k].key > key))
  }

  // Where a search for the greatest key <= key stands; the first entry if all are greater.
  ghost predicate AtFloor(C: seq<Entry>, pos: nat, key: nat)
  {
    if C == [] then pos == 0 else pos < |C| && forall k :: 0 <= k < |C| ==> FloorAt(C, pos, key, k)
  }

  // Result of a search in C: the position it stands at, the key it shows and the data it
  // shows there, 0 when it stands on an empty insert slot.
  ghost predicate Found(C: seq<Entry>, pos: nat, k: nat, data: nat, key: nat, keyIsMax: bool)
  {
    true == if keyIsMax
            then AtFloor(C, pos, key) && (C != [] ==> data > 0)
            else AtCeil(C, pos, key) && (k == key > 0 ==> data > 0)
  }

  // The same on plain sequences: entries b before the leaf, es in it, a after it.
  ghost predicate Spot(b: seq<Entry>, es: seq<Entry>, a: seq<Entry>, j: nat, key: nat)
  {
    && Sorted(b + es + a)
    && (forall k :: 0 <= k < |b| ==> b[k].key <= key)
    && (forall k :: 0 <= k < |a| ==> key < a[k].key)
    && j <= |es|
    && (forall k :: 0 <= k < j ==> es[k].key < key)
    && (j < |es| ==> es[j].key >= key)
    && (b != [] ==> es != [] && es[0].key <= key)
  }

  lemma SpotCeil(C: seq<Entry>, b: seq<Entry>, es: seq<Entry>, a: seq<Entry>, j: nat, key: nat)
    requires C == b + es + a && Spot(b, es, a, j, key)
    ensures AtCeil(C, |b| + j, key)
  {
    var pos := |b| + j;
    assert j < |es| ==> C[pos] == es[j];
    assert b != [] ==> C[|b|] == es[0];
    forall k | 0 <= k < |C|
      ensures CeilAt(C, pos, key, k)
    {
      assert pos < k ==> Le(C, pos, k);
      assert k < |b| ==> Le(C, k, |b|);
    }
  }

  lemma SpotFloor(C: seq<Entry>, b: seq<Entry>, es: seq<Entry>, a: seq<Entry>, j: nat, i: nat, key: nat)
    requires C == b + es + a && Spot(b, es, a, j, key) && (es == [] ==> b == [] && a == [])
    requires i == if j > 0 && (j == |es| || es[j].key > key) then j - 1 else j
    ensures AtFloor(C, |b| + i, key) && (es != [] ==> i < |es|)
  {
    SpotCeil(C, b, es, a, j, key);
    var pos := |b| + i;
    assert b != [] ==> C[|b|] == es[0];
    if C != [] {
      assert C[pos] == es[i];
      assert j < |es| ==> C[|b| + j] == es[j];
      forall k | 0 <= k < |C|
        ensures FloorAt(C, pos, key, k)
      {
        assert CeilAt(C, |b| + j, key, k);
        assert k > |b| + j && j < |es| ==> Le(C, |b| + j, k);
        assert k >= |b| + |es| ==> C[k] == a[k - |b| - |es|];
      }
    }
  }

  lemma SpotFound(C: seq<Entry>, b: seq<Entry>, es: seq<Entry>, a: seq<Entry>, j: nat, i: nat, k: nat, data: nat,
                  key: nat, keyIsMax: bool)
    requires C == b + es + a && Spot(b, es, a, j, key) && (es == [] ==> b == [] && a == [])
    requires i == if keyIsMax && j > 0 && (j == |es| || es[j].key > key) then j - 1 else j
    requires i < |es| ==> data > 0
    requires i == |es| ==> k == Head(a)
    ensures Found(C, |b| + i, k, data, key, keyIsMax)
  {
    if keyIsMax {
      SpotFloor(C, b, es, a, j, i, key);
    } else {
      SpotCeil(C, b, es, a, i, key);
    }
  }
}
