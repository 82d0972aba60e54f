/**
 * `getMostUsedKey`: the key with the highest count, ties broken by the
 * higher weight, full ties by the earlier insertion.
 */
module MostUsed {
  import opened Wrappers
  import opened Keys
  import opened IndentsMap

  /** The loop variables `result`, `maxUsed` and `maxWeight`. */
  datatype Choice = Choice(result: Option<Key>, maxUsed: nat, maxWeight: nat)

  /** An entry replaces the current choice only when it has a strictly
      higher count, or the same count and a strictly higher weight. */
  predicate Beats(e: Entry, maxUsed: nat, maxWeight: nat)
  {
    e.count > maxUsed || (e.count == maxUsed && e.weight > maxWeight)
  }

  /** The loop variables after the first `|t|` entries. */
  function Pick(t: seq<Entry>): (c: Choice)
    ensures c.result.None? <==> forall j :: 0 <= j < |t| ==> t[j].count == 0 && t[j].weight == 0
    ensures c.result.None? ==> c.maxUsed == 0 && c.maxWeight == 0
    ensures forall j :: 0 <= j < |t| ==> t[j].count <= c.maxUsed
    ensures forall j :: 0 <= j < |t| && t[j].count == c.maxUsed ==> t[j].weight <= c.maxWeight
    ensures c.result.Some? ==> exists j :: 0 <= j < |t| && t[j] == Entry(c.result.value, c.maxUsed, c.maxWeight)
  {
    if |t| == 0 then Choice(None, 0, 0)
    else
      var prefix := t[..|t| - 1];
      var c := Pick(prefix);
      var e := t[|t| - 1];
      assert forall j :: 0 <= j < |prefix| ==> prefix[j] == t[j];
      if Beats(e, c.maxUsed, c.maxWeight) then Choice(Some(e.key), e.count, e.weight) else c
  }

  /** No entry has a higher count than entry `j`. */
  predicate MostCount(t: seq<Entry>, j: nat)
    requires j < |t|
  {
    forall i :: 0 <= i < |t| ==> t[i].count <= t[j].count
  }

  /** `getMostUsedKey`: null when no entry has a positive count or weight,
      else the key of an entry whose count no other entry exceeds. */
  function MostUsedKey(t: seq<Entry>): (r: Option<Key>)
    ensures r.None? <==> forall j :: 0 <= j < |t| ==> t[j].count == 0 && t[j].weight == 0
    ensures r.Some? ==> exists j :: 0 <= j < |t| && t[j].key == r.value && MostCount(t, j)
  {
    Pick(t).result
  }

  /** Entry `w` is the earliest entry with the highest count and, among
      those with that count, the highest weight. */
  predicate IsFirstBest(t: seq<Entry>, w: nat)
  {
    && w < |t|
    && (forall j :: 0 <= j < |t| ==> t[j].count <= t[w].count)
    && (forall j :: 0 <= j < |t| && t[j].count == t[w].count ==> t[j].weight <= t[w].weight)
    && (forall j :: 0 <= j < w ==> !(t[j].count == t[w].count && t[j].weight == t[w].weight))
  }

  /** What the choice is after any prefix: nothing while no entry had a
      positive count or weight, else the first best entry so far. */
  lemma {:induction false} PickIsFirstBest(t: seq<Entry>) returns (w: nat)
    ensures Pick(t).result.None? <==> forall j :: 0 <= j < |t| ==> t[j].count == 0 && t[j].weight == 0
    ensures Pick(t).result.None? ==> Pick(t).maxUsed == 0 && Pick(t).maxWeight == 0
    ensures Pick(t).result.Some? ==>
      && IsFirstBest(t, w) && t[w].key == Pick(t).result.value
      && Pick(t).maxUsed == t[w].count && Pick(t).maxWeight == t[w].weight
  {
    if |t| == 0 {
      return 0;
    }
    var prefix := t[..|t| - 1];
    var e := t[|t| - 1];
    var w' := PickIsFirstBest(prefix);
    var c := Pick(prefix);
    assert forall j :: 0 <= j < |prefix| ==> prefix[j] == t[j];
    if Beats(e, c.maxUsed, c.maxWeight) {
      w := |t| - 1;
    } else {
      w := w';
    }
  }

  /** `getMostUsedKey` returns null exactly when the table is empty. */
  lemma MostUsedKeyNone(t: seq<Entry>)
    requires WellFormed(t)
    ensures MostUsedKey(t).None? <==> |t| == 0
  {
    var _ := PickIsFirstBest(t);
    if |t| > 0 {
      assert t[0].count >= 1;
    }
  }

  /** Otherwise it is the key of the first best entry. */
  lemma MostUsedKeyIsFirstBest(t: seq<Entry>) returns (w: nat)
    requires MostUsedKey(t).Some?
    ensures IsFirstBest(t, w) && t[w].key == MostUsedKey(t).value
  {
    w := PickIsFirstBest(t);
  }

  /** At most one entry is the first best. */
  lemma FirstBestUnique(t: seq<Entry>, a: nat, b: nat)
    requires IsFirstBest(t, a) && IsFirstBest(t, b)
    ensures a == b
  {
    assert t[a].count == t[b].count && t[a].weight == t[b].weight;
  }

  /** Conversely, the key of the first best entry is returned as soon as
      that entry has a positive count or weight. */
  lemma MostUsedKeyOf(t: seq<Entry>, w: nat)
    requires IsFirstBest(t, w) && (t[w].count > 0 || t[w].weight > 0)
    ensures MostUsedKey(t) == Some(t[w].key)
  {
    var v := PickIsFirstBest(t);
    FirstBestUnique(t, v, w);
  }

  /** The loop of the source: a later entry takes over only by beating the
      current maximum. */
  method GetMostUsedKey(indents: seq<Entry>) returns (result: Option<Key>)
    ensures result == MostUsedKey(indents)
  {
    result := None;
    var maxUsed: nat := 0;
    var maxWeight: nat := 0;
    for i := 0 to |indents|
      invariant Choice(result, maxUsed, maxWeight) == Pick(indents[..i])
    {
      assert indents[..i + 1][..i] == indents[..i];
      var usedCount := indents[i].count;
      var weight := indents[i].weight;
      if usedCount <= maxUsed && (usedCount != maxUsed || weight <= maxWeight) {
        continue;
      }
      maxUsed := usedCount;
      maxWeight := weight;
      result := Some(indents[i].key);
    }
    assert indents[..|indents|] == indents;
  }
}
