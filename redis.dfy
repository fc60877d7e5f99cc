/** The Redis key space as the node-redis client sees it: string keys with
    string or counter values and a time-to-live, plus the SCAN cursor. */
module Redis {
  import opened Common

  datatype Value = Text(s: string) | Counter(n: int)

  /** `ttl` is the remaining lifetime in seconds, -1 for a key without one.
      The model has no clock: keys do not expire between commands. */
  datatype Entry = Entry(value: Value, ttl: int)

  /** The keys a SCAN call returns for the slots `from..to`: those that
      exist and match the pattern `prefix*`. */
  function ScanBatch(order: seq<string>, data: map<string, Entry>, from: nat, to: nat,
                     prefix: string): (r: seq<string>)
    requires from <= to <= |order|
    ensures forall i :: 0 <= i < |r| ==> r[i] in data && StartsWith(r[i], prefix)
    ensures forall i :: from <= i < to && order[i] in data && StartsWith(order[i], prefix) ==> order[i] in r
  {
    Filter(order[from..to], (k: string) => k in data && StartsWith(k, prefix))
  }

  /** The map without the given keys (`DEL k1 k2 ...`). */
  function DelKeys(data: map<string, Entry>, keys: seq<string>): (r: map<string, Entry>)
    ensures forall k :: k in r <==> k in data && k !in keys
    ensures forall k :: k in r ==> r[k] == data[k]
  {
    map k | k in data && k !in keys :: data[k]
  }

  /** The map without keys that start with `prefix`. */
  function WithoutPrefix(data: map<string, Entry>, prefix: string): (r: map<string, Entry>)
    ensures forall k :: k in r <==> k in data && !StartsWith(k, prefix)
    ensures forall k :: k in r ==> r[k] == data[k]
  {
    map k | k in data && !StartsWith(k, prefix) :: data[k]
  }

  /** `GET`: a counter reads back as its decimal text. */
  function GetValue(data: map<string, Entry>, key: string): (r: Option<string>)
    ensures r.None? <==> key !in data
  {
    if key !in data then None
    else match data[key].value
      case Text(s) => Some(s)
      case Counter(n) => Some(IntToString(n))
  }

  /** `TTL`: -2 for a missing key, -1 for a key without expiry. */
  function TtlOf(data: map<string, Entry>, key: string): (r: int)
    ensures key !in data ==> r == -2
    ensures key in data ==> r == data[key].ttl
  {
    if key in data then data[key].ttl else -2
  }

  /** `INCR`: a missing key counts from 0 and has no expiry; the TTL of an
      existing counter is kept; a value that is not a counter fails. Real
      INCR also increments text holding a decimal integer, which no key
      incremented here ever holds. */
  function IncrResult(data: map<string, Entry>, key: string): (r: Option<(int, map<string, Entry>)>)
    ensures r.None? <==> key in data && data[key].value.Text?
    ensures r.Some? ==> r.value.0 == (if key in data then data[key].value.n + 1 else 1)
    ensures r.Some? ==> r.value.1 == data[key := Entry(Counter(r.value.0),
                                                       if key in data then data[key].ttl else -1)]
  {
    if key !in data then Some((1, data[key := Entry(Counter(1), -1)]))
    else match data[key].value
      case Text(_) => None
      case Counter(n) => Some((n + 1, data[key := Entry(Counter(n + 1), data[key].ttl)]))
  }

  class RedisStore {
    var isOpen: bool
    var data: map<string, Entry>
    /** The hash-table slot order that SCAN walks; a deleted key keeps its slot. */
    var order: seq<string>

    ghost predicate Valid()
      reads this
    {
      forall k :: k in data ==> k in order
    }

    method Del(keys: seq<string>)
      requires Valid() && isOpen
      modifies this
      ensures Valid() && isOpen && order == old(order)
      ensures data == DelKeys(old(data), keys)
    {
      data := DelKeys(data, keys);
    }

    method SetEx(key: string, seconds: int, value: string)
      requires Valid() && isOpen
      modifies this
      ensures Valid() && isOpen
      ensures data == old(data)[key := Entry(Text(value), seconds)]
      ensures order == (if key in old(order) then old(order) else old(order) + [key])
    {
      data := data[key := Entry(Text(value), seconds)];
      if key !in order {
        order := order + [key];
      }
    }

    method Get(key: string) returns (r: Option<string>)
      requires isOpen
      ensures r == GetValue(data, key)
    {
      r := GetValue(data, key);
    }

    method Ttl(key: string) returns (r: int)
      requires isOpen
      ensures r == TtlOf(data, key)
    {
      r := TtlOf(data, key);
    }

    /** Returns None for the error a text value raises. */
    method Incr(key: string) returns (r: Option<int>)
      requires Valid() && isOpen
      modifies this
      ensures Valid() && isOpen
      ensures var res := IncrResult(old(data), key);
              (res.None? ==> r.None? && data == old(data) && order == old(order))
              && (res.Some? ==> r == Some(res.value.0) && data == res.value.1
                                && order == (if key in old(order) then old(order) else old(order) + [key]))
    {
      var res := IncrResult(data, key);
      if res.None? {
        r := None;
      } else {
        r := Some(res.value.0);
        data := res.value.1;
        if key !in order {
          order := order + [key];
        }
      }
    }

    /** `EXPIRE`: true when the key exists. */
    method Expire(key: string, seconds: int) returns (r: bool)
      requires Valid() && isOpen
      modifies this
      ensures Valid() && isOpen && order == old(order)
      ensures r <==> key in old(data)
      ensures data == (if r then old(data)[key := old(data)[key].(ttl := seconds)] else old(data))
    {
      r := key in data;
      if r {
        data := data[key := data[key].(ttl := seconds)];
      }
    }

    /** `SCAN cursor MATCH prefix* COUNT count`: visits `count` slots from
        the cursor and returns the next cursor, 0 once the walk is complete. */
    method Scan(cursor: nat, prefix: string, count: nat) returns (next: nat, keys: seq<string>)
      requires isOpen && cursor <= |order| && count > 0
      ensures cursor + count >= |order| ==> next == 0
      ensures cursor + count < |order| ==> next == cursor + count
      ensures keys == ScanBatch(order, data, cursor, if cursor + count < |order| then cursor + count else |order|, prefix)
    {
      var to := if cursor + count < |order| then cursor + count else |order|;
      keys := ScanBatch(order, data, cursor, to, prefix);
      next := if cursor + count < |order| then cursor + count else 0;
    }
  }
}
