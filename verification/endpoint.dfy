/**
 * The `/askFind` handler of packages/hardhat/scripts/server.ts: parse the
 * `objectType` parameter, scan for each parsed id, build the response tree
 * and convert its bigints to numbers.
 *
 * The handler calls a `scan` that readMapTiles.ts does not define; the scan
 * modelled here is `findOres`, which takes the same player and id list.
 */
module Endpoint {
  import opened Voxel
  import opened Scanner
  import opened JsValues
  import opened QueryParam

  /** A coordinate as the oracle returns it: three bigint fields. */
  function CoordToJson(c: Coord): JsValue {
    JObject([Prop("x", JBigInt(c.x)), Prop("y", JBigInt(c.y)), Prop("z", JBigInt(c.z))])
  }

  /** A `FindingResult` record as `findOres` builds it. */
  function FindingToJson(f: Finding<JsNumber>): JsValue {
    JObject([
      Prop("ObjectID", JNumber(f.objectId)),
      Prop("length", JNumber(Finite(f.length as real))),
      Prop("Result", JArray(seq(|f.result|, i requires 0 <= i < |f.result| => CoordToJson(f.result[i]))))])
  }

  /**
   * A coordinate as the response carries it: three number fields, equal to
   * the coordinate's components when these are safe integers.
   */
  function CoordWire(c: Coord): (r: JsValue)
    ensures r.JObject? && Keys(r.props) == ["x", "y", "z"]
    ensures IsSafeInteger(c.x) && IsSafeInteger(c.y) && IsSafeInteger(c.z) ==>
              r.props[0].value == JNumber(Finite(c.x as real))
              && r.props[1].value == JNumber(Finite(c.y as real))
              && r.props[2].value == JNumber(Finite(c.z as real))
  {
    JObject([
      Prop("x", JNumber(NumberOfInt(c.x))),
      Prop("y", JNumber(NumberOfInt(c.y))),
      Prop("z", JNumber(NumberOfInt(c.z)))])
  }

  /** A record as the response carries it: the id and count untouched, coordinates as numbers. */
  function FindingWire(f: Finding<JsNumber>): JsValue {
    JObject([
      Prop("ObjectID", JNumber(f.objectId)),
      Prop("length", JNumber(Finite(f.length as real))),
      Prop("Result", JArray(seq(|f.result|, i requires 0 <= i < |f.result| => CoordWire(f.result[i]))))])
  }

  /** Converting a record's bigints touches only its coordinates. */
  lemma ConvertFinding(f: Finding<JsNumber>)
    ensures Convert(FindingToJson(f)) == FindingWire(f)
  {
    var coords := FindingToJson(f).props[2].value;
    forall i | 0 <= i < |f.result| ensures Convert(coords.elems[i]) == CoordWire(f.result[i]) {
      var c := f.result[i];
      assert Convert(CoordToJson(c)).props == CoordWire(c).props;
    }
    assert Convert(coords).elems == FindingWire(f).props[2].value.elems;
  }

  /** `JSON.stringify(convertBigIntToNumber(result))` before the text rendering. */
  function Respond(found: seq<Finding<JsNumber>>): JsValue {
    Convert(JArray(seq(|found|, i requires 0 <= i < |found| => FindingToJson(found[i]))))
  }

  /** The response lists each record in wire form, in order. */
  lemma RespondWire(found: seq<Finding<JsNumber>>)
    ensures Respond(found) == JArray(seq(|found|, i requires 0 <= i < |found| => FindingWire(found[i])))
  {
    forall i | 0 <= i < |found| ensures Respond(found).elems[i] == FindingWire(found[i]) {
      ConvertFinding(found[i]);
    }
  }

  /** The record the endpoint reports for one requested id. */
  function ExpectedRecord(reader: Reader<JsNumber>, player: string, id: JsNumber): JsValue {
    var hits := FindOre(reader, reader.getPlayerLocation(player), id);
    FindingWire(Finding(id, |hits|, hits))
  }

  /**
   * `GET /askFind?player=...&objectType=[...]`: one record per parsed id, in
   * order, NaN ids included (the handler rejects nothing); the body holds no
   * bigint.
   */
  method AskFind(reader: Reader<JsNumber>, player: string, objectType: string) returns (body: JsValue)
    ensures NoBigInt(body)
    ensures body.JArray?
    ensures |body.elems| == Count(SliceInner(objectType), Comma) + 1
    ensures var ids := ParseObjectType(objectType);
            |body.elems| == |ids| &&
            forall i :: 0 <= i < |ids| ==> body.elems[i] == ExpectedRecord(reader, player, ids[i])
  {
    var ids := ParseObjectType(objectType);
    var found, _ := FindOres(reader, player, ids);
    body := Respond(found);
    RespondWire(found);
    forall i | 0 <= i < |ids| ensures body.elems[i] == ExpectedRecord(reader, player, ids[i]) {
      var hits := FindOre(reader, reader.getPlayerLocation(player), ids[i]);
      assert found[i] == Finding(ids[i], |hits|, hits);
    }
  }
}
