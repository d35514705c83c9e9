/** The in-memory key-value store and its record of client operations. */
module KvStore {
  import opened Types

  const OP_PUT: string := "PUT"
  const OP_GET: string := "GET"

  /** A recorded client operation. The client's name, operation number and times play no part in checking. */
  datatype Operation = Operation(kind: string, key: string, val: string, success: bool)

  class KVStore {
    var data: KV
    var history: seq<Operation>

    constructor ()
      ensures data == map[] && history == []
    {
      data, history := map[], [];
    }

    /** A missing key reads as the empty string. */
    method Get(key: string) returns (value: string, found: bool)
      ensures found <==> key in data
      ensures value == if key in data then data[key] else ""
    {
      found := key in data;
      value := if found then data[key] else "";
    }

    method Put(key: string, value: string)
      modifies this`data
      ensures data == old(data)[key := value]
    {
      data := data[key := value];
    }

    method RecordOperation(op: Operation)
      modifies this`history
      ensures history == old(history) + [op]
    {
      history := history + [op];
    }

    /** A copy made key by key equals the map. */
    method Snapshot() returns (copy: KV)
      ensures copy == data
    {
      copy := map[];
      var rest := data.Keys;
      while rest != {}
        invariant rest <= data.Keys
        invariant copy.Keys == data.Keys - rest
        invariant forall k :: k in copy ==> copy[k] == data[k]
        decreases |rest|
      {
        var k :| k in rest;
        copy := copy[k := data[k]];
        rest := rest - {k};
      }
    }

    method Restore(snapshot: KV)
      modifies this`data
      ensures data == snapshot
    {
      data := snapshot;
    }
  }
}
