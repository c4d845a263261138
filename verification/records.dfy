/** The per-cycle records of `collect_and_store` and the batch of points built
    from them. `datas` is a Python dict keyed by device id, which iterates in the
    order its keys were first inserted; a second assignment to a key replaces
    the value and keeps the key's place. */
module Records {

  /** One value of a device record: the registers a parameter read returned,
      or the elapsed read time stored under `'Read time'`. */
  datatype Field = Registers(regs: seq<int>) | Seconds(elapsed: int)

  /** One device's record: parameter name to value. */
  type Record = map<string, Field>

  const ReadTimeKey: string := "Read time"

  /** The measurement name every point carries. */
  const Measurement: string := "energy"

  /** `datas`: the keys in insertion order, and the key-to-record map. */
  datatype Datas = Datas(order: seq<int>, rec: map<int, Record>)

  ghost predicate Distinct(s: seq<int>) {
    forall a, b :: 0 <= a < b < |s| ==> s[a] != s[b]
  }

  /** The order lists every key of the map exactly once. */
  ghost predicate Wf(d: Datas) {
    && Distinct(d.order)
    && (forall id :: id in d.rec <==> id in d.order)
    && |d.rec| == |d.order|
  }

  const Empty: Datas := Datas([], map[])

  /** `datas[id] = r`. */
  function Put(d: Datas, id: int, r: Record): (d': Datas)
    requires Wf(d)
    ensures Wf(d')
    ensures id in d'.rec && d'.rec[id] == r
  {
    if id in d.rec then Datas(d.order, d.rec[id := r])
    else Datas(d.order + [id], d.rec[id := r])
  }

  /** Assigning `datas[id]` adds at most the key `id`, leaves the other records
      alone, and keeps the order of the keys already present: an existing key
      is overwritten in place and a new key goes last. */
  lemma PutKeepsOthers(d: Datas, id: int, r: Record)
    requires Wf(d)
    ensures Put(d, id, r).rec.Keys == d.rec.Keys + {id}
    ensures forall x :: x != id && x in d.rec ==> Put(d, id, r).rec[x] == d.rec[x]
    ensures var d' := Put(d, id, r); |d.order| <= |d'.order| && d'.order[..|d.order|] == d.order
    ensures id in d.rec ==> Put(d, id, r).order == d.order
    ensures id !in d.rec ==> Put(d, id, r).order == d.order + [id]
  {
  }

  /** One point of the batch written to InfluxDB. Its tags are `id` and `device`. */
  datatype Point = Point(measurement: string, id: int, device: string, time: int, fields: Record)

  /** The list comprehension building `json_body`: one point per key of `datas`,
      in iteration order, all with the same device tag and time. */
  function BuildBatch(d: Datas, deviceTag: string, time: int): (b: seq<Point>)
    requires Wf(d)
    ensures |b| == |d.rec|
    ensures forall p <- b ::
      p.measurement == Measurement && p.device == deviceTag && p.time == time
      && p.id in d.rec && p.fields == d.rec[p.id]
    // every record has a point, and no record has two
    ensures forall id :: id in d.rec ==> exists k :: 0 <= k < |b| && b[k].id == id
    ensures forall k1, k2 :: 0 <= k1 < k2 < |b| ==> b[k1].id != b[k2].id
  {
    forall k | 0 <= k < |d.order|
      ensures d.order[k] in d.rec
    {
      var id := d.order[k];
      assert id in d.order;
    }
    var b := seq(|d.order|, k requires 0 <= k < |d.order| =>
      Point(Measurement, d.order[k], deviceTag, time, d.rec[d.order[k]]));
    assert forall id :: id in d.rec ==> exists k :: 0 <= k < |b| && b[k].id == id by {
      forall id | id in d.rec
        ensures exists k :: 0 <= k < |b| && b[k].id == id
      {
        assert id in d.order;
        var k :| 0 <= k < |d.order| && d.order[k] == id;
        assert b[k].id == id;
      }
    }
    b
  }
}
