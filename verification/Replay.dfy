/**
 A partition log delivered at least once. Each message writes some keys; the consumer's position
 moves forward one message at a time and may be rewound. Two kinds of store see the deliveries: a
 table in which the last delivery wins, and registers in which the highest version wins.
 */
module Replay {
  import opened Options
  import opened ReplacingMergeTree

  /** The table after delivering the first n messages once each, in order. */
  function Overlay<K, V>(base: map<K, V>, writes: seq<map<K, V>>, n: nat): map<K, V>
    requires n <= |writes|
  {
    if n == 0 then base else Overlay(base, writes, n - 1) + writes[n - 1]
  }

  ghost predicate Holds<K, V>(base: map<K, V>, writes: seq<map<K, V>>, n: nat, k: K, v: V)
    requires n <= |writes|
  {
    k in Overlay(base, writes, n) && Overlay(base, writes, n)[k] == v
  }

  /** i is the newest message below n that writes k. */
  ghost predicate LastWriter<K, V>(writes: seq<map<K, V>>, n: nat, k: K, i: nat)
    requires n <= |writes|
  {
    i < n && k in writes[i] && forall j | i < j < n :: k !in writes[j]
  }

  /**
   With the position at pos and high the furthest it has been: every row is what the in-order
   delivery of some prefix, no shorter than pos, would have left there.
   */
  ghost predicate Settled<K, V>(base: map<K, V>, writes: seq<map<K, V>>, pos: nat, high: nat, table: map<K, V>) {
    && pos <= high <= |writes|
    && table.Keys == Overlay(base, writes, high).Keys
    && forall k | k in table :: exists n :: pos <= n <= high && Holds(base, writes, n, k, table[k])
  }

  lemma {:induction false} OverlayKeysGrow<K, V>(base: map<K, V>, writes: seq<map<K, V>>, m: nat, n: nat)
    requires m <= n <= |writes|
    ensures Overlay(base, writes, m).Keys <= Overlay(base, writes, n).Keys
  {
    if m < n { OverlayKeysGrow(base, writes, m, n - 1); }
  }

  lemma {:induction false} OverlayIsLastWrite<K, V>(base: map<K, V>, writes: seq<map<K, V>>, n: nat, k: K, i: nat)
    requires n <= |writes| && LastWriter(writes, n, k, i)
    ensures Holds(base, writes, n, k, writes[i][k])
  {
    if i < n - 1 { OverlayIsLastWrite(base, writes, n - 1, k, i); }
  }

  /** A row left by a prefix that reaches past the last writer below pos is no older than it. */
  lemma {:induction false} HeldRowIsNoOlder<K, V>(base: map<K, V>, writes: seq<map<K, V>>, pos: nat, n: nat, k: K,
                                                  v: V, i: nat)
    returns (j: nat)
    requires pos <= n <= |writes| && LastWriter(writes, pos, k, i) && Holds(base, writes, n, k, v)
    ensures i <= j < n && k in writes[j] && writes[j][k] == v
  {
    if k in writes[n - 1] {
      j := n - 1;
    } else {
      j := HeldRowIsNoOlder(base, writes, if pos < n then pos else n - 1, n - 1, k, v, i);
    }
  }

  lemma OverlayStep<K, V>(base: map<K, V>, writes: seq<map<K, V>>, n: nat, k: K, v: V)
    requires n < |writes|
    ensures k in writes[n] ==> Holds(base, writes, n + 1, k, writes[n][k])
    ensures k !in writes[n] && Holds(base, writes, n, k, v) ==> Holds(base, writes, n + 1, k, v)
  {
  }

  lemma OverlayStepKeys<K, V>(base: map<K, V>, writes: seq<map<K, V>>, n: nat)
    requires n < |writes|
    ensures Overlay(base, writes, n + 1).Keys == Overlay(base, writes, n).Keys + writes[n].Keys
  {
  }

  lemma DeliveryKeepsSettled<K, V>(base: map<K, V>, writes: seq<map<K, V>>, pos: nat, high: nat, table: map<K, V>)
    requires Settled(base, writes, pos, high, table) && pos < |writes|
    ensures Settled(base, writes, pos + 1, if high > pos then high else pos + 1, table + writes[pos])
  {
    hide Overlay, Holds;
    var high' := if high > pos then high else pos + 1;
    OverlayStepKeys(base, writes, pos);
    OverlayKeysGrow(base, writes, pos + 1, high');
    var after := table + writes[pos];
    assert after.Keys == table.Keys + writes[pos].Keys;
    forall k | k in after ensures exists n :: pos + 1 <= n <= high' && Holds(base, writes, n, k, after[k]) {
      OverlayStep(base, writes, pos, k, after[k]);
      if k in writes[pos] {
        assert Holds(base, writes, pos + 1, k, after[k]);
      } else {
        var n :| pos <= n <= high && Holds(base, writes, n, k, table[k]);
        assert Holds(base, writes, if n == pos then pos + 1 else n, k, after[k]);
      }
    }
  }

  lemma RewindKeepsSettled<K, V>(base: map<K, V>, writes: seq<map<K, V>>, pos: nat, high: nat, table: map<K, V>,
                                 to: nat)
    requires Settled(base, writes, pos, high, table) && to <= pos
    ensures Settled(base, writes, to, high, table)
  {
  }

  /** Caught up with its furthest position, the table is that of one in-order delivery. */
  lemma SettledAtHigh<K, V>(base: map<K, V>, writes: seq<map<K, V>>, high: nat, table: map<K, V>)
    requires Settled(base, writes, high, high, table)
    ensures table == Overlay(base, writes, high)
  {
    hide Overlay;
    forall k | k in table ensures table[k] == Overlay(base, writes, high)[k] {
      var n :| high <= n <= high && Holds(base, writes, n, k, table[k]);
    }
  }

  // ----- registers ----------------------------------------------------------------------------

  /** The last fact of each key in a block. */
  function LastData<K(==), D>(block: seq<Fact<K, D>>): map<K, D>
    decreases |block|
  {
    if block == [] then map[]
    else LastData(block[..|block| - 1])[block[|block| - 1].key := block[|block| - 1].data]
  }

  /** Absorbing a block of one version: its last facts land unless a higher version is there. */
  lemma {:induction false} AbsorbUniform<K, D>(view: map<K, Latest<D>>, block: seq<Fact<K, D>>, version: nat)
    requires forall i | 0 <= i < |block| :: block[i].version == version
    ensures AbsorbAll(view, block).Keys == view.Keys + LastData(block).Keys
    ensures forall k | k in AbsorbAll(view, block) ::
              AbsorbAll(view, block)[k] ==
              if k in LastData(block) && !(k in view && view[k].version > version)
              then Latest(version, LastData(block)[k])
              else if k in view then view[k] else AbsorbAll(view, block)[k]
    decreases |block|
  {
    if block != [] { AbsorbUniform(view, block[..|block| - 1], version); }
  }

  /** The block of the message at an offset took effect, under a version. */
  datatype Landed = Landed(offset: nat, version: nat)

  predicate Lands<K, S>(writes: seq<map<K, S>>, l: Landed, k: K) { l.offset < |writes| && k in writes[l.offset] }

  /** Which of these blocks, oldest first, is left standing at k: a lower version changes nothing. */
  function Winner<K, S>(writes: seq<map<K, S>>, landed: seq<Landed>, k: K): (w: Option<nat>)
    ensures w.Some? ==> w.value < |landed| && Lands(writes, landed[w.value], k)
    decreases |landed|
  {
    if landed == [] then None
    else
      var n := |landed| - 1;
      var before := Winner(writes, landed[..n], k);
      if Lands(writes, landed[n], k) && (before.None? || landed[before.value].version <= landed[n].version) then Some(n)
      else before
  }

  /** No block for k has a higher version, and none behind it the same. */
  predicate Stands<K, S>(writes: seq<map<K, S>>, landed: seq<Landed>, k: K, j: nat) {
    && j < |landed| && Lands(writes, landed[j], k)
    && forall i: nat | i < |landed| && Lands(writes, landed[i], k) ::
         landed[i].version < landed[j].version || (landed[i].version == landed[j].version && i <= j)
  }

  lemma {:induction false} WinnerStands<K, S>(writes: seq<map<K, S>>, landed: seq<Landed>, k: K)
    ensures Winner(writes, landed, k).Some? ==> Stands(writes, landed, k, Winner(writes, landed, k).value)
    ensures Winner(writes, landed, k).None? ==> forall j: nat | j < |landed| :: !Lands(writes, landed[j], k)
    decreases |landed|
  {
    hide Lands;
    if landed != [] {
      var init := landed[..|landed| - 1];
      WinnerStands(writes, init, k);
      assert forall i: nat | i < |init| :: init[i] == landed[i];
    }
  }

  /** By version and then by order of insertion. */
  lemma WinnerExactly<K, S>(writes: seq<map<K, S>>, landed: seq<Landed>, k: K, j: nat)
    ensures Winner(writes, landed, k) == Some(j) <==> Stands(writes, landed, k, j)
    ensures Winner(writes, landed, k).None? <==> forall i: nat | i < |landed| :: !Lands(writes, landed[i], k)
  {
    WinnerStands(writes, landed, k);
    hide Winner, Lands;
  }

  /** The register of k holds what the block left standing there wrote, under its version. */
  ghost predicate TracksAt<K, D, S>(
    view: map<K, Latest<D>>, writes: seq<map<K, S>>, agrees: (S, D) -> bool, landed: seq<Landed>, k: K)
  {
    var w := Winner(writes, landed, k);
    && (k in view <==> w.Some?)
    && (k in view ==>
          view[k].version == landed[w.value].version && agrees(writes[landed[w.value].offset][k], view[k].data))
  }

  /** All registers do, and every key written has one. */
  ghost predicate Tracks<K, D, S>(
    view: map<K, Latest<D>>, writes: seq<map<K, S>>, agrees: (S, D) -> bool, landed: seq<Landed>)
  {
    && (forall k | k in view :: TracksAt(view, writes, agrees, landed, k))
    && (forall j: nat | j < |landed| && landed[j].offset < |writes| :: writes[landed[j].offset].Keys <= view.Keys)
  }

  lemma TracksEverywhere<K, D, S>(
    view: map<K, Latest<D>>, writes: seq<map<K, S>>, agrees: (S, D) -> bool, landed: seq<Landed>, k: K)
    requires Tracks(view, writes, agrees, landed)
    ensures TracksAt(view, writes, agrees, landed, k)
  {
    if k !in view { WinnerStands(writes, landed, k); }
  }

  lemma WinnerNext<K, S>(writes: seq<map<K, S>>, landed: seq<Landed>, l: Landed, k: K)
    ensures
      var before := Winner(writes, landed, k);
      Winner(writes, landed + [l], k) ==
      if Lands(writes, l, k) && (before.None? || landed[before.value].version <= l.version) then Some(|landed|)
      else before
  {
    var more := landed + [l];
    assert more[..|more| - 1] == landed;
    hide Lands;
  }

  /** After a block of one version a key holds what the block wrote there, unless it held a higher version. */
  ghost predicate BlockAt<K, D>(
    view: map<K, Latest<D>>, after: map<K, Latest<D>>, data: map<K, D>, version: nat)
  {
    && after.Keys == view.Keys + data.Keys
    && forall k | k in after ::
         if k in data && !(k in view && view[k].version > version) then after[k] == Latest(version, data[k])
         else k in view && after[k] == view[k]
  }

  lemma AbsorbedAt<K, D>(view: map<K, Latest<D>>, block: seq<Fact<K, D>>, version: nat)
    requires forall i | 0 <= i < |block| :: block[i].version == version
    ensures BlockAt(view, AbsorbAll(view, block), LastData(block), version)
  {
    AbsorbUniform(view, block, version);
  }

  lemma BlockKeepsTracksAt<K, D, S>(
    view: map<K, Latest<D>>, after: map<K, Latest<D>>, data: map<K, D>, writes: seq<map<K, S>>,
    agrees: (S, D) -> bool, landed: seq<Landed>, l: Landed, k: K)
    requires TracksAt(view, writes, agrees, landed, k) && l.offset < |writes|
    requires BlockAt(view, after, data, l.version) && data.Keys == writes[l.offset].Keys
    requires k in data ==> agrees(writes[l.offset][k], data[k])
    ensures TracksAt(after, writes, agrees, landed + [l], k)
  {
    WinnerNext(writes, landed, l, k);
    hide Winner;
  }

  lemma BlockKeepsTracks<K, D, S>(
    view: map<K, Latest<D>>, writes: seq<map<K, S>>, agrees: (S, D) -> bool, landed: seq<Landed>,
    block: seq<Fact<K, D>>, l: Landed)
    requires Tracks(view, writes, agrees, landed) && l.offset < |writes|
    requires forall i | 0 <= i < |block| :: block[i].version == l.version
    requires LastData(block).Keys == writes[l.offset].Keys
    requires forall k | k in writes[l.offset] :: agrees(writes[l.offset][k], LastData(block)[k])
    ensures Tracks(AbsorbAll(view, block), writes, agrees, landed + [l])
  {
    hide TracksAt, AbsorbAll, LastData;
    AbsorbedAt(view, block, l.version);
    forall k | k in AbsorbAll(view, block) ensures TracksAt(AbsorbAll(view, block), writes, agrees, landed + [l], k) {
      TracksEverywhere(view, writes, agrees, landed, k);
      BlockKeepsTracksAt(view, AbsorbAll(view, block), LastData(block), writes, agrees, landed, l, k);
    }
  }

  /** Message i's block has landed. */
  predicate Ever(landed: seq<Landed>, i: nat) { exists j: nat :: j < |landed| && landed[j].offset == i }

  /** Among the messages below n that write k, last has the highest stamp, and its blocks carry that stamp. */
  ghost predicate NewestStamp<K, S>(writes: seq<map<K, S>>, stamps: seq<nat>, n: nat, k: K, last: nat)
    requires n <= |writes| == |stamps|
  {
    last < n && forall i | 0 <= i < n && k in writes[i] && i != last :: stamps[i] < stamps[last]
  }

  /** Blocks below n for k came with their message's stamp. */
  ghost predicate StampedBelow<K, S>(writes: seq<map<K, S>>, stamps: seq<nat>, landed: seq<Landed>, n: nat, k: K)
    requires n <= |writes| == |stamps|
  {
    forall j: nat | j < |landed| && Lands(writes, landed[j], k) ::
      landed[j].offset < n && landed[j].version == stamps[landed[j].offset]
  }

  /** The message with the newest stamp stands exactly when one of its blocks ever landed. */
  lemma NewestStands<K, S>(
    writes: seq<map<K, S>>, stamps: seq<nat>, landed: seq<Landed>, n: nat, k: K, last: nat)
    requires n <= |writes| == |stamps| && NewestStamp(writes, stamps, n, k, last) && k in writes[last]
    requires StampedBelow(writes, stamps, landed, n, k)
    ensures
      var w := Winner(writes, landed, k);
      && (Ever(landed, last) <==> w.Some? && landed[w.value].version == stamps[last])
      && (Ever(landed, last) <==> w.Some? && landed[w.value].offset == last)
  {
    WinnerStands(writes, landed, k);
    hide Winner;
    var w := Winner(writes, landed, k);
    if Ever(landed, last) {
      var j: nat :| j < |landed| && landed[j].offset == last;
      assert Lands(writes, landed[j], k);
    }
  }
}
