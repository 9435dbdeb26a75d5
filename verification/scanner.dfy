/**
 * The ore scanner of packages/hardhat/scripts/readMapTiles.ts: for each
 * requested object id, eleven layer queries to a read-only oracle around
 * the player, with the oracle's empty slots filtered out.
 *
 * The oracle (the MapReader contract reached through `staticCall`) is a
 * parameter: a `Reader` holds its two read operations as functions. The
 * scanner never inspects object ids, so it is generic in their type.
 */
module Scanner {
  import opened Voxel
  import opened Seqs

  /** One coordinate slot as the contract returns it: three positional values. */
  datatype Slot = Slot(v0: int, v1: int, v2: int)

  /** Answer of `foundTargetInArea`: a match count and a fixed-capacity slot array. */
  datatype Response = Response(count: int, slots: seq<Slot>)

  /** The two oracle reads the scanner uses. */
  datatype Reader<!Id> = Reader(
    getPlayerLocation: string -> Coord,
    foundTargetInArea: (Area, Id) -> Response)

  /** One `FindingResult` record: the requested id, the number of hits and the hits. */
  datatype Finding<Id> = Finding(objectId: Id, length: nat, result: seq<Coord>)

  /** An oracle read issued by the scanner, in issue order. */
  datatype Call<Id> = GetPlayerLocation(player: string) | FoundTargetInArea(area: Area, objectId: Id)

  /** The all-zero coordinate the oracle uses for an empty slot. */
  const Origin: Coord := Coord(0, 0, 0)

  /** The slot test of `findOre`: all three positional values are zero. */
  predicate IsEmptySlot(s: Slot) {
    s.v0 == 0 && s.v1 == 0 && s.v2 == 0
  }

  /** `Object.values` of a coordinate object: its x, y and z, in that order. */
  function ValuesOf(c: Coord): Slot {
    Slot(c.x, c.y, c.z)
  }

  /**
   * `getVoxelFromResult`: names the three positional values x, y, z.
   * It is the inverse of `ValuesOf`, and yields the origin exactly for an empty slot.
   */
  function GetVoxelFromResult(s: Slot): (r: Coord)
    ensures ValuesOf(r) == s
    ensures r == Origin <==> IsEmptySlot(s)
  {
    Coord(s.v0, s.v1, s.v2)
  }

  /**
   * The per-layer filter: drop empty slots, convert the rest, keep slot order.
   * A coordinate is reported exactly when its slot is present and it is not the origin.
   */
  function KeepFound(slots: seq<Slot>): (r: seq<Coord>)
    ensures |r| <= |slots|
    ensures Origin !in r
    ensures forall c :: c in r <==> ValuesOf(c) in slots && c != Origin
  {
    var kept := Filter(slots, s => !IsEmptySlot(s));
    var r := Voxels(kept);
    assert Origin !in r by {
      forall k | 0 <= k < |kept| ensures r[k] != Origin {
        assert kept[k] in kept;
      }
    }
    assert forall c :: ValuesOf(c) in kept ==> c in r by {
      forall c | ValuesOf(c) in kept ensures c in r {
        var k :| 0 <= k < |kept| && kept[k] == ValuesOf(c);
        assert r[k] == c;
      }
    }
    r
  }

  /** The `.map(getVoxelFromResult)` step over already filtered slots. */
  function Voxels(kept: seq<Slot>): (r: seq<Coord>)
    ensures |r| == |kept|
    ensures forall k :: 0 <= k < |kept| ==> r[k] == GetVoxelFromResult(kept[k])
  {
    seq(|kept|, k requires 0 <= k < |kept| => GetVoxelFromResult(kept[k]))
  }

  /** Converting two slot lists one after the other is converting their concatenation. */
  lemma VoxelsAppend(ka: seq<Slot>, kb: seq<Slot>)
    ensures Voxels(ka + kb) == Voxels(ka) + Voxels(kb)
  {
    var whole, parts := Voxels(ka + kb), Voxels(ka) + Voxels(kb);
    forall k | 0 <= k < |whole| ensures whole[k] == parts[k] {
      if k < |ka| {
        assert (ka + kb)[k] == ka[k];
      } else {
        assert (ka + kb)[k] == kb[k - |ka|];
      }
    }
  }

  /** Survivors of the slots of one ordered slot list split in two are the two survivor lists. */
  lemma {:induction false} KeepFoundAppend(a: seq<Slot>, b: seq<Slot>)
    ensures KeepFound(a + b) == KeepFound(a) + KeepFound(b)
  {
    var keep := s => !IsEmptySlot(s);
    FilterAppend(a, b, keep);
    VoxelsAppend(Filter(a, keep), Filter(b, keep));
  }

  /** One layer's contribution: nothing unless the count is positive. */
  function LayerHits(resp: Response): (r: seq<Coord>)
    ensures |r| <= |resp.slots|
    ensures forall c :: c in r <==> resp.count > 0 && c != Origin && ValuesOf(c) in resp.slots
  {
    if resp.count > 0 then KeepFound(resp.slots) else []
  }

  /** The eleven `foundTargetInArea` reads of one `findOre`, layer by layer. */
  function LayerCalls<Id>(loc: Coord, id: Id): (r: seq<Call<Id>>)
    ensures |r| == LayerCount
    ensures forall i :: 0 <= i < LayerCount ==> r[i] == FoundTargetInArea(Layers(loc)[i], id)
  {
    seq(LayerCount, i requires 0 <= i < LayerCount => FoundTargetInArea(Layers(loc)[i], id))
  }

  /** The oracle's answers to the eleven layer reads. */
  function LayerResponses<Id>(reader: Reader<Id>, loc: Coord, id: Id): seq<Response> {
    seq(LayerCount, i requires 0 <= i < LayerCount => reader.foundTargetInArea(Layers(loc)[i], id))
  }

  /** Each layer's contribution, in layer order. */
  function AllLayerHits<Id>(reader: Reader<Id>, loc: Coord, id: Id): seq<seq<Coord>> {
    var resps := LayerResponses(reader, loc, id);
    seq(LayerCount, i requires 0 <= i < LayerCount => LayerHits(resps[i]))
  }

  /** `findOre`: the hits of all eleven layers, concatenated in layer order. */
  function FindOre<Id>(reader: Reader<Id>, loc: Coord, id: Id): (r: seq<Coord>)
    ensures Origin !in r
  {
    var hits := AllLayerHits(reader, loc, id);
    FlattenMembership(hits, Origin);
    Flatten(hits)
  }

  /**
   * A coordinate is reported exactly when some layer answered with a positive
   * count and a slot holding that coordinate, and it is not the origin: a
   * layer whose count is not positive contributes nothing, whatever its slots hold.
   */
  lemma FindOreReports<Id>(reader: Reader<Id>, loc: Coord, id: Id, c: Coord)
    ensures var resps := LayerResponses(reader, loc, id);
            c in FindOre(reader, loc, id) <==>
              c != Origin && exists i :: 0 <= i < LayerCount && resps[i].count > 0 && ValuesOf(c) in resps[i].slots
  {
    var resps := LayerResponses(reader, loc, id);
    var hits := AllLayerHits(reader, loc, id);
    FlattenMembership(hits, c);
    assert forall i :: 0 <= i < LayerCount ==>
             (c in hits[i] <==> c != Origin && resps[i].count > 0 && ValuesOf(c) in resps[i].slots);
  }

  /**
   * Layer order is kept: layer `j`'s hits form one contiguous block, after the
   * hits of every lower layer and before those of every higher one.
   */
  lemma FindOreLayerOrder<Id>(reader: Reader<Id>, loc: Coord, id: Id, j: nat)
    requires j < LayerCount
    ensures var hits := AllLayerHits(reader, loc, id);
            FindOre(reader, loc, id) == Flatten(hits[..j]) + LayerHits(LayerResponses(reader, loc, id)[j]) + Flatten(hits[j + 1..])
  {
    FlattenAround(AllLayerHits(reader, loc, id), j);
  }

  /** The oracle reads of `findOres` for `ids`, in issue order. */
  function IssuedCalls<Id>(player: string, loc: Coord, ids: seq<Id>): seq<Call<Id>> {
    if |ids| == 0 then [GetPlayerLocation(player)]
    else IssuedCalls(player, loc, ids[..|ids| - 1]) + LayerCalls(loc, ids[|ids| - 1])
  }

  /** Scanning one more id appends that id's eleven layer reads to the trace. */
  lemma IssuedCallsStep<Id>(player: string, loc: Coord, ids: seq<Id>, n: nat)
    requires n < |ids|
    ensures IssuedCalls(player, loc, ids[..n + 1]) == IssuedCalls(player, loc, ids[..n]) + LayerCalls(loc, ids[n])
  {
    assert ids[..n + 1][..n] == ids[..n];
  }

  /** The trace holds the one location read, then eleven layer reads per id. */
  lemma {:induction false} IssuedCallsLength<Id>(player: string, loc: Coord, ids: seq<Id>)
    ensures |IssuedCalls(player, loc, ids)| == 1 + LayerCount * |ids|
    ensures IssuedCalls(player, loc, ids)[0] == GetPlayerLocation(player)
  {
    if |ids| > 0 {
      IssuedCallsLength(player, loc, ids[..|ids| - 1]);
    }
  }

  /**
   * For the `j`-th id, the eleven reads from position `1 + 11 * j` on are its
   * layer reads, bottom layer first.
   */
  lemma {:induction false} IssuedCallsBlock<Id>(player: string, loc: Coord, ids: seq<Id>, j: nat)
    requires j < |ids|
    ensures 1 + LayerCount * (j + 1) <= |IssuedCalls(player, loc, ids)|
    ensures IssuedCalls(player, loc, ids)[1 + LayerCount * j .. 1 + LayerCount * (j + 1)] == LayerCalls(loc, ids[j])
  {
    var init := ids[..|ids| - 1];
    var prev := IssuedCalls(player, loc, init);
    IssuedCallsLength(player, loc, init);
    var calls := IssuedCalls(player, loc, ids);
    assert calls == prev + LayerCalls(loc, ids[|ids| - 1]);
    if j < |ids| - 1 {
      IssuedCallsBlock(player, loc, init, j);
      assert init[j] == ids[j];
      assert calls[1 + LayerCount * j .. 1 + LayerCount * (j + 1)] ==
             prev[1 + LayerCount * j .. 1 + LayerCount * (j + 1)];
    } else {
      assert 1 + LayerCount * j == |prev|;
    }
  }

  /**
   * The second pass of `getVoxelFromResult` in `findOres`, over coordinates
   * `findOre` already converted: it gives back the same list.
   */
  function Reconvert(cs: seq<Coord>): (r: seq<Coord>)
    ensures r == cs
  {
    seq(|cs|, k requires 0 <= k < |cs| => GetVoxelFromResult(ValuesOf(cs[k])))
  }

  /** The record `findOres` builds for one id. */
  function Record<Id>(reader: Reader<Id>, loc: Coord, id: Id): Finding<Id> {
    var hits := FindOre(reader, loc, id);
    Finding(id, |hits|, hits)
  }

  /** The records of `findOres` for `ids`, in request order. */
  function Findings<Id>(reader: Reader<Id>, loc: Coord, ids: seq<Id>): (r: seq<Finding<Id>>)
    ensures |r| == |ids|
    ensures forall i :: 0 <= i < |ids| ==> r[i] == Record(reader, loc, ids[i])
  {
    seq(|ids|, i requires 0 <= i < |ids| => Record(reader, loc, ids[i]))
  }

  /** Scanning one more id appends its record. */
  lemma FindingsStep<Id>(reader: Reader<Id>, loc: Coord, ids: seq<Id>, n: nat)
    requires n < |ids|
    ensures Findings(reader, loc, ids[..n + 1]) == Findings(reader, loc, ids[..n]) + [Record(reader, loc, ids[n])]
  {
    var longer, shorter := Findings(reader, loc, ids[..n + 1]), Findings(reader, loc, ids[..n]);
    forall k | 0 <= k < n + 1 ensures longer[k] == (shorter + [Record(reader, loc, ids[n])])[k] {
      if k < n {
        assert ids[..n + 1][k] == ids[..n][k];
      }
    }
  }

  /**
   * One iteration of `findOres`: scan for `id` around `loc`, convert the
   * hits once more and record them with their number.
   */
  method ScanOne<Id>(reader: Reader<Id>, loc: Coord, id: Id) returns (record: Finding<Id>)
    ensures record.objectId == id && record.length == |record.result|
    ensures record.result == FindOre(reader, loc, id)
  {
    var res := Reconvert(FindOre(reader, loc, id));
    record := Finding(id, |res|, res);
  }

  /**
   * `findOres`: one record per requested id, in request order (duplicates
   * included), each carrying that id's hits and their number. `calls` lists
   * the oracle reads in issue order: the player's location first, then the
   * eleven layer reads of each id in turn.
   */
  method FindOres<Id>(reader: Reader<Id>, player: string, objectId: seq<Id>)
    returns (found: seq<Finding<Id>>, calls: seq<Call<Id>>)
    ensures |found| == |objectId|
    ensures forall i :: 0 <= i < |objectId| ==>
              && found[i].objectId == objectId[i]
              && found[i].length == |found[i].result|
              && found[i].result == FindOre(reader, reader.getPlayerLocation(player), objectId[i])
    ensures calls == IssuedCalls(player, reader.getPlayerLocation(player), objectId)
  {
    var loc := reader.getPlayerLocation(player);
    found := [];
    calls := [GetPlayerLocation(player)];
    for i := 0 to |objectId|
      invariant found == Findings(reader, loc, objectId[..i])
      invariant calls == IssuedCalls(player, loc, objectId[..i])
    {
      var record := ScanOne(reader, loc, objectId[i]);
      found := found + [record];
      FindingsStep(reader, loc, objectId, i);
      calls := calls + LayerCalls(loc, objectId[i]);
      IssuedCallsStep(player, loc, objectId, i);
    }
    assert objectId[..|objectId|] == objectId;
  }

  /** The oracle of the scenario below: two hits on the player's own layer, nothing elsewhere. */
  function ScenarioOracle(a: Area, id: int): Response {
    if a.corner.y == 5 && id == 37 then Response(2, [Slot(8, 5, 8), Slot(0, 0, 0), Slot(12, 5, 12)])
    else Response(0, [])
  }

  /**
   * Player at (10, 5, 10), ore 37: the layer at y = 5 answers two hits with an
   * empty slot between them, every other layer answers none. The scan reports
   * exactly the two hits, in slot order.
   */
  lemma ScenarioTwoHits(locate: string -> Coord)
    ensures FindOre(Reader(locate, ScenarioOracle), Coord(10, 5, 10), 37) == [Coord(8, 5, 8), Coord(12, 5, 12)]
  {
    var reader := Reader(locate, ScenarioOracle);
    var loc := Coord(10, 5, 10);
    forall i | 0 <= i < LayerCount && i != 5
      ensures AllLayerHits(reader, loc, 37)[i] == []
    {
      ScenarioLayer(locate, i);
    }
    ScenarioLayer(locate, 5);
    FindOreSingleLayer(reader, loc, 37, 5);
  }

  /** When only layer `j` reports anything, the scan result is layer `j`'s hits. */
  lemma FindOreSingleLayer<Id>(reader: Reader<Id>, loc: Coord, id: Id, j: nat)
    requires j < LayerCount
    requires forall i :: 0 <= i < LayerCount && i != j ==> AllLayerHits(reader, loc, id)[i] == []
    ensures FindOre(reader, loc, id) == AllLayerHits(reader, loc, id)[j]
  {
    var hits := AllLayerHits(reader, loc, id);
    FindOreLayerOrder(reader, loc, id, j);
    var below, above := hits[..j], hits[j + 1..];
    assert forall i :: 0 <= i < |below| ==> below[i] == hits[i];
    FlattenOfEmpties(below);
    assert forall i :: 0 <= i < |above| ==> above[i] == hits[j + 1 + i];
    FlattenOfEmpties(above);
  }

  /** Layer `i` of the scenario sits at height `i`; only layer 5 reports hits. */
  lemma ScenarioLayer(locate: string -> Coord, i: nat)
    requires i < LayerCount
    ensures AllLayerHits(Reader(locate, ScenarioOracle), Coord(10, 5, 10), 37)[i] ==
            if i == 5 then [Coord(8, 5, 8), Coord(12, 5, 12)] else []
  {
    var loc := Coord(10, 5, 10);
    var a := Layers(loc)[i];
    assert a.corner.y == i;
    var resp := LayerResponses(Reader(locate, ScenarioOracle), loc, 37)[i];
    assert resp == ScenarioOracle(a, 37);
    if i == 5 {
      assert resp == Response(2, [Slot(8, 5, 8), Slot(0, 0, 0), Slot(12, 5, 12)]);
      ScenarioSlots();
    } else {
      assert resp == Response(0, []);
    }
  }

  /** The filter of the scenario's busy layer drops the empty middle slot. */
  lemma ScenarioSlots()
    ensures KeepFound([Slot(8, 5, 8), Slot(0, 0, 0), Slot(12, 5, 12)]) == [Coord(8, 5, 8), Coord(12, 5, 12)]
  {
    var slots := [Slot(8, 5, 8), Slot(0, 0, 0), Slot(12, 5, 12)];
    assert slots[1..] == [Slot(0, 0, 0), Slot(12, 5, 12)];
    assert slots[1..][1..] == [Slot(12, 5, 12)];
    assert Filter(slots, s => !IsEmptySlot(s)) == [Slot(8, 5, 8), Slot(12, 5, 12)];
  }
}
