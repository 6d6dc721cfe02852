/** The abstract key-value semantics the account system relies on: Redis sets
    (`SADD`, `SISMEMBER`, `SREM`, `SMEMBERS`) and one Redis hash per user
    (`HSET`, `HGET`, `HDEL`). Sets are Dafny sets, so `SADD`, `SISMEMBER` and
    `SREM` are `+ {v}`, `in` and `- {v}`; only the hashes and the `SMEMBERS`
    reply need definitions of their own. */
module Redis {
  import opened Wrappers

  /** The fields of one hash, e.g. "users:bob". */
  type Hash = map<string, string>

  /** All hashes of one `RedisHashMap`, keyed by the hash key (the username).
      A key that is absent stands for a hash with no fields. */
  type HashMap = map<string, Hash>

  /** The fields stored under `key`; empty when there is no such hash. */
  function Fields(h: HashMap, key: string): Hash {
    if key in h then h[key] else map[]
  }

  /** `HSET key field value`. */
  function HSet(h: HashMap, key: string, field: string, value: string): (r: HashMap)
    ensures key in r && field in r[key] && r[key][field] == value
    ensures forall f :: f in Fields(h, key) && f != field ==> f in r[key] && r[key][f] == Fields(h, key)[f]
    ensures forall f :: f in r[key] ==> f == field || f in Fields(h, key)
    ensures forall k :: k != key ==> Fields(r, k) == Fields(h, k)
  {
    h[key := Fields(h, key)[field := value]]
  }

  /** `HGET key field`: a missing hash or a missing field is a nil reply,
      which the client turns into an error, modelled as None. */
  function HGet(h: HashMap, key: string, field: string): (r: Option<string>)
    ensures r.Some? <==> field in Fields(h, key)
    ensures r.Some? ==> r.value == Fields(h, key)[field]
  {
    var fs := Fields(h, key);
    if field in fs then Some(fs[field]) else None
  }

  /** `HDEL key field`; deleting an absent field changes nothing. */
  function HDel(h: HashMap, key: string, field: string): (r: HashMap)
    ensures field !in Fields(r, key)
    ensures forall f :: f != field ==> HGet(r, key, f) == HGet(h, key, f)
    ensures forall k :: k != key ==> Fields(r, k) == Fields(h, k)
  {
    if key in h then h[key := h[key] - {field}] else h
  }

  /** A reply to `SMEMBERS` on the set `xs`: every member exactly once, in
      an order the server chooses. */
  ghost predicate IsMembersReply(listing: seq<string>, xs: set<string>) {
    && (forall i :: 0 <= i < |listing| ==> listing[i] in xs)
    && (forall x :: x in xs ==> x in listing)
    && (forall i, j :: 0 <= i < j < |listing| ==> listing[i] != listing[j])
  }

  /** Reading a field right after writing it yields the written value. */
  lemma HGetAfterHSet(h: HashMap, key: string, field: string, value: string, key': string, field': string)
    ensures HGet(HSet(h, key, field, value), key', field') ==
            if key' == key && field' == field then Some(value) else HGet(h, key', field')
  {
  }

  /** Reading a field right after deleting a field. */
  lemma HGetAfterHDel(h: HashMap, key: string, field: string, key': string, field': string)
    ensures HGet(HDel(h, key, field), key', field') ==
            if key' == key && field' == field then None else HGet(h, key', field')
  {
  }
}
