/** The width part of `CachingShaper::font_base_dimensions`: the advances
    between consecutive glyph offsets of a reference string, and the most
    frequent advance as the monospace cell width. */
module Metrics {
  import opened Wrappers

  /** `windows(2).map(|pair| pair[1] - pair[0])`: one advance per pair of
      neighbouring offsets, so one fewer than there are offsets, and none
      for fewer than two. */
  function Advances(offsets: seq<int>): (adv: seq<int>)
    ensures |adv| == if |offsets| < 2 then 0 else |offsets| - 1
    ensures forall i :: 0 <= i < |adv| ==> adv[i] == offsets[i + 1] - offsets[i]
  {
    if |offsets| < 2 then [] else [offsets[1] - offsets[0]] + Advances(offsets[1..])
  }

  /** The offsets reached from `start` by moving by each advance in turn. */
  function Accumulate(start: int, adv: seq<int>): seq<int>
    decreases adv
  {
    if adv == [] then [start] else [start] + Accumulate(start + adv[0], adv[1..])
  }

  /** The advances lose nothing but the first offset: accumulating them
      from the first offset rebuilds every offset. */
  lemma {:induction false} AdvancesRebuildOffsets(offsets: seq<int>)
    requires offsets != []
    ensures Accumulate(offsets[0], Advances(offsets)) == offsets
  {
    if |offsets| >= 2 {
      AdvancesRebuildOffsets(offsets[1..]);
      var adv := Advances(offsets);
      assert adv[1..] == Advances(offsets[1..]);
      assert offsets[0] + adv[0] == offsets[1..][0];
      assert offsets == [offsets[0]] + offsets[1..];
    }
  }

  /** `w` is one of the advances and no advance occurs more often. */
  ghost predicate IsMode(advances: seq<int>, w: int) {
    && w in advances
    && forall a :: a in advances ==> multiset(advances)[a] <= multiset(advances)[w]
  }

  /** The counting loop and `max_by_key` of `font_base_dimensions`: counts
      every advance in a map, then scans the map for a largest count. The
      map's order is unspecified, so among equally frequent advances any
      may win. No advances, no width (the `unwrap` that fails). */
  method MostFrequentAdvance(advances: seq<int>) returns (width: Option<int>)
    ensures width == None <==> advances == []
    ensures width.Some? ==> IsMode(advances, width.value)
  {
    var amounts: map<int, nat> := map[];
    var i := 0;
    while i < |advances|
      invariant 0 <= i <= |advances|
      invariant forall a :: a in amounts <==> a in advances[..i]
      invariant forall a :: a in amounts ==> amounts[a] == multiset(advances[..i])[a]
    {
      var advance := advances[i];
      assert advances[..i + 1] == advances[..i] + [advance];
      if advance in amounts {
        amounts := amounts[advance := amounts[advance] + 1];
      } else {
        amounts := amounts[advance := 1];
      }
      i := i + 1;
    }
    assert advances[..i] == advances;
    assert forall a :: a in amounts <==> a in advances;
    if advances != [] {
      assert advances[0] in amounts;
    }

    var best := MaxByCount(amounts);
    width := best;
  }

  /** `max_by_key` over the count map: a key with a largest count, found by
      visiting the keys in an unspecified order; none for an empty map. */
  method MaxByCount(amounts: map<int, nat>) returns (best: Option<int>)
    ensures best == None <==> amounts == map[]
    ensures best.Some? ==> best.value in amounts
    ensures best.Some? ==> forall a :: a in amounts ==> amounts[a] <= amounts[best.value]
  {
    var unseen := amounts.Keys;
    best := None;
    while unseen != {}
      invariant unseen <= amounts.Keys
      invariant best == None <==> unseen == amounts.Keys
      invariant best.Some? ==> best.value in amounts
      invariant best.Some? ==> forall a :: a in amounts && a !in unseen ==> amounts[a] <= amounts[best.value]
      decreases unseen
    {
      if forall k :: k !in unseen {
        // a non-empty set has a member
        assert false;
      }
      var key :| key in unseen;
      if best == None || amounts[key] >= amounts[best.value] {
        best := Some(key);
      }
      unseen := unseen - {key};
    }
    if best == None {
      assert amounts.Keys == {};
    }
  }

  /** Advances [5, 5, 5, 7, 5, 6] have the single mode 5. */
  lemma ModeExample(w: int)
    ensures IsMode([5, 5, 5, 7, 5, 6], w) <==> w == 5
  {
    var s := [5, 5, 5, 7, 5, 6];
    var m := multiset(s);
    assert m[5] == 4 && m[6] == 1 && m[7] == 1;
    if IsMode(s, w) {
      assert m[5] <= m[w];
    }
  }
}
