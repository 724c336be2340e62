/** The versioned signer state: a map from keys to values with a version each,
    exchanged between the node and its signers by `merge` and `diff`.

    Values are opaque JSON documents, identified with their text. */
module Persist {
  import opened Prims

  datatype Json = Json(text: string)

  datatype Entry = Entry(version: u64, value: Json)

  type Values = map<string, Entry>

  // ---------------------------------------------------------------- key order

  /** The order of the keys of a `BTreeMap`. */
  predicate Less(a: string, b: string) {
    b != [] && (a == [] || a[0] < b[0] || (a[0] == b[0] && Less(a[1..], b[1..])))
  }

  lemma {:induction false} LessTotal(a: string, b: string)
    ensures a == b || Less(a, b) || Less(b, a)
  {
    if a != [] && b != [] && a[0] == b[0] {
      LessTotal(a[1..], b[1..]);
      assert a == [a[0]] + a[1..] && b == [b[0]] + b[1..];
    }
  }

  lemma {:induction false} LessAsymmetric(a: string, b: string)
    requires Less(a, b)
    ensures !Less(b, a) && a != b
  {
    if a != [] && a[0] == b[0] {
      LessAsymmetric(a[1..], b[1..]);
    }
  }

  lemma {:induction false} LessTransitive(a: string, b: string, c: string)
    requires Less(a, b) && Less(b, c)
    ensures Less(a, c)
  {
    if a != [] && a[0] == b[0] == c[0] {
      LessTransitive(a[1..], b[1..], c[1..]);
    }
  }

  predicate IsLeast(k: string, keys: set<string>) {
    k in keys && forall o :: o in keys && o != k ==> Less(k, o)
  }

  lemma {:induction false} LeastExists(keys: set<string>)
    requires keys != {}
    ensures exists k :: IsLeast(k, keys)
  {
    var k :| k in keys;
    var rest := keys - {k};
    if rest == {} {
      assert forall o :: o in keys ==> o in rest || o == k;
      assert IsLeast(k, keys);
    } else {
      LeastExists(rest);
      var l :| IsLeast(l, rest);
      LessTotal(k, l);
      if Less(l, k) {
        assert IsLeast(l, keys);
      } else {
        forall o | o in rest && o != l ensures Less(k, o) {
          LessTransitive(k, l, o);
        }
        assert IsLeast(k, keys);
      }
    }
  }

  lemma LeastUnique(keys: set<string>)
    ensures forall k, l :: IsLeast(k, keys) && IsLeast(l, keys) ==> k == l
  {
    forall k, l | IsLeast(k, keys) && IsLeast(l, keys) ensures k == l {
      if k != l {
        LessAsymmetric(k, l);
      }
    }
  }

  function Least(keys: set<string>): (k: string)
    requires keys != {}
    ensures IsLeast(k, keys)
  {
    LeastExists(keys);
    LeastUnique(keys);
    var k :| k in keys && IsLeast(k, keys);
    k
  }

  /** The iteration order of a map with these keys. */
  function Ordered(keys: set<string>): seq<string> {
    if keys == {} then [] else [Least(keys)] + Ordered(keys - {Least(keys)})
  }

  // ---------------------------------------------------------------- merge and diff

  /** Whether the entry of `b` at `k` is missing from `a` or newer there. */
  predicate Newer(a: Values, b: Values, k: string)
    requires k in b
  {
    k !in a || a[k].version < b[k].version
  }

  function Merged(a: Values, b: Values): Values {
    map k | k in a.Keys + b.Keys :: if k in b && Newer(a, b, k) then b[k] else a[k]
  }

  datatype StateChange = StateChange(key: string, prior: Option<Entry>, latest: Entry)

  /** What `merge` reports of a change. */
  datatype VersionChange = VersionChange(key: string, prior: Option<u64>, latest: u64)

  function Versions(c: StateChange): VersionChange {
    VersionChange(c.key, if c.prior.Some? then Some(c.prior.value.version) else None, c.latest.version)
  }

  function ChangeAt(a: Values, b: Values, k: string): StateChange
    requires k in b
  {
    StateChange(k, if k in a then Some(a[k]) else None, b[k])
  }

  function ChangesOver(keys: seq<string>, a: Values, b: Values): seq<StateChange>
    requires forall k :: k in keys ==> k in b
  {
    if keys == [] then []
    else (if Newer(a, b, keys[0]) then [ChangeAt(a, b, keys[0])] else []) + ChangesOver(keys[1..], a, b)
  }

  lemma {:induction false} OrderedMembers(keys: set<string>)
    ensures forall k :: k in Ordered(keys) <==> k in keys
    ensures |Ordered(keys)| == |keys|
  {
    if keys != {} {
      OrderedMembers(keys - {Least(keys)});
    }
  }

  function Diff(a: Values, b: Values): seq<StateChange> {
    OrderedMembers(b.Keys);
    ChangesOver(Ordered(b.Keys), a, b)
  }

  function VersionsOf(cs: seq<StateChange>): seq<VersionChange> {
    if cs == [] then [] else [Versions(cs[0])] + VersionsOf(cs[1..])
  }

  lemma FirstChange(todo: set<string>, a: Values, b: Values)
    requires todo != {} && todo <= b.Keys
    ensures var k := Least(todo);
            ReportOver(todo, a, b) ==
            (if Newer(a, b, k) then [Versions(ChangeAt(a, b, k))] else []) + ReportOver(todo - {k}, a, b)
  {
    var k := Least(todo);
    OrderedMembers(todo);
    OrderedMembers(todo - {k});
    var rest := ChangesOver(Ordered(todo - {k}), a, b);
    assert Ordered(todo)[1..] == Ordered(todo - {k});
    if Newer(a, b, k) {
      assert ChangesOver(Ordered(todo), a, b) == [ChangeAt(a, b, k)] + rest;
      assert ([ChangeAt(a, b, k)] + rest)[1..] == rest;
    } else {
      assert ChangesOver(Ordered(todo), a, b) == rest;
    }
  }

  /** What `merge` reports for the keys in `todo`. */
  function ReportOver(todo: set<string>, a: Values, b: Values): seq<VersionChange>
    requires todo <= b.Keys
  {
    OrderedMembers(todo);
    VersionsOf(ChangesOver(Ordered(todo), a, b))
  }

  /** `res` is the report so far, `todo` the keys still to visit. */
  ghost predicate Reported(res: seq<VersionChange>, todo: set<string>, a: Values, b: Values)
    requires todo <= b.Keys
  {
    res + ReportOver(todo, a, b) == ReportOver(b.Keys, a, b)
  }

  lemma ReportOne(res: seq<VersionChange>, todo: set<string>, a: Values, b: Values)
    requires todo != {} && todo <= b.Keys && Reported(res, todo, a, b)
    ensures var k := Least(todo);
            Reported(res + (if Newer(a, b, k) then [Versions(ChangeAt(a, b, k))] else []), todo - {k}, a, b)
  {
    FirstChange(todo, a, b);
  }

  /** `m` is the merge of `a` with the part of `b` outside `todo`. */
  ghost predicate PartlyMerged(m: Values, todo: set<string>, a: Values, b: Values) {
    && m.Keys == a.Keys + (b.Keys - todo)
    && forall k :: k in m ==> m[k] == if k in b && k !in todo && Newer(a, b, k) then b[k] else a[k]
  }

  // ---------------------------------------------------------------- keys and local writes

  const NODE_PREFIX := "nodes"
  const NODE_STATE_PREFIX := "nodestates"
  const CHANNEL_PREFIX := "channels"
  const ALLOWLIST_PREFIX := "allowlists"
  const TRACKER_PREFIX := "trackers"

  function Key(prefix: string, id: string): string {
    prefix + "/" + id
  }

  /** The five kinds of keys. */
  lemma KeysInUse(id: string)
    ensures Key(NODE_PREFIX, id) == "nodes/" + id && Key(NODE_STATE_PREFIX, id) == "nodestates/" + id
    ensures Key(CHANNEL_PREFIX, id) == "channels/" + id && Key(TRACKER_PREFIX, id) == "trackers/" + id
    ensures Key(ALLOWLIST_PREFIX, id) == "allowlists/" + id
    ensures forall p :: p in {NODE_PREFIX, NODE_STATE_PREFIX, CHANNEL_PREFIX, TRACKER_PREFIX, ALLOWLIST_PREFIX} ==>
                          '/' !in p
  {
  }

  /** `Panicked` is a failed `assert!`, `expect` or `unwrap`; the state is then unchanged. */
  datatype Outcome = Done | Panicked

  /** The version after an update: a release build wraps at the top. */
  function Bumped(version: u64): u64 {
    if version == 0xFFFF_FFFF_FFFF_FFFF then 0 else version + 1
  }

  function Updated(m: Values, k: string, v: Json): Values
    requires k in m
  {
    m[k := Entry(Bumped(m[k].version), v)]
  }

  function Inserted(m: Values, k: string, v: Json): Values {
    m[k := Entry(0, v)]
  }

  datatype SignerStateEntry = SignerStateEntry(key: string, value: Json, version: u64)

  class State {
    var values: Values

    constructor ()
      ensures values == map[]
    {
      values := map[];
    }

    method Merge(other: State) returns (res: seq<VersionChange>)
      requires other != this
      modifies this
      ensures values == Merged(old(values), other.values)
      ensures res == VersionsOf(Diff(old(values), other.values))
    {
      ghost var a, b := values, other.values;
      res := [];
      var todo := other.values.Keys;
      while todo != {}
        invariant todo <= b.Keys && other.values == b
        invariant PartlyMerged(values, todo, a, b)
        invariant Reported(res, todo, a, b)
        decreases todo
      {
        var key := Least(todo);
        var newer := other.values[key];
        ReportOne(res, todo, a, b);
        assert res + [] == res;
        if key !in values {
          assert Versions(ChangeAt(a, b, key)) == VersionChange(key, None, newer.version);
          res := res + [VersionChange(key, None, newer.version)];
          values := values[key := newer];
        } else if values[key].version < newer.version {
          assert Versions(ChangeAt(a, b, key)) == VersionChange(key, Some(values[key].version), newer.version);
          res := res + [VersionChange(key, Some(values[key].version), newer.version)];
          values := values[key := newer];
        }
        todo := todo - {key};
      }
    }

    method InsertNode(id: string, node: Json, nodeState: Json) returns (r: Outcome)
      modifies this
      ensures var nk, sk := Key(NODE_PREFIX, id), Key(NODE_STATE_PREFIX, id);
              if nk in old(values) || sk in old(values) then r == Panicked && values == old(values)
              else r == Done && values == Inserted(Inserted(old(values), nk, node), sk, nodeState)
      ensures r == Done ==>
                && values.Keys == old(values).Keys + {"nodes/" + id, "nodestates/" + id}
                && values["nodes/" + id] == Entry(0, node) && values["nodestates/" + id] == Entry(0, nodeState)
    {
      KeysInUse(id);
      assert ("nodes/" + id)[5] != ("nodestates/" + id)[5];
      var nodeKey, stateKey := Key(NODE_PREFIX, id), Key(NODE_STATE_PREFIX, id);
      if nodeKey in values {
        return Panicked;
      }
      if stateKey in values {
        return Panicked;
      }
      values := values[nodeKey := Entry(0, node)];
      values := values[stateKey := Entry(0, nodeState)];
      r := Done;
    }

    /** `update_node`, `update_channel` and `update_tracker`, which differ in the key prefix. */
    method Update(prefix: string, id: string, value: Json) returns (r: Outcome)
      modifies this
      ensures var k := Key(prefix, id);
              if k !in old(values) then r == Panicked && values == old(values)
              else r == Done && values == Updated(old(values), k, value)
    {
      var key := Key(prefix, id);
      if key !in values {
        return Panicked;
      }
      values := values[key := Entry(Bumped(values[key].version), value)];
      r := Done;
    }

    /** `insert_channel` and `new_chain_tracker`. */
    method Insert(prefix: string, id: string, value: Json) returns (r: Outcome)
      modifies this
      ensures var k := Key(prefix, id);
              if k in old(values) then r == Panicked && values == old(values)
              else r == Done && values == Inserted(old(values), k, value)
    {
      var key := Key(prefix, id);
      if key in values {
        return Panicked;
      }
      values := values[key := Entry(0, value)];
      r := Done;
    }

    method UpdateNodeAllowlist(id: string, allowlist: Json)
      modifies this
      ensures var k := Key(ALLOWLIST_PREFIX, id);
              values == if k in old(values) then Updated(old(values), k, allowlist)
                        else Inserted(old(values), k, allowlist)
      ensures values.Keys == old(values).Keys + {"allowlists/" + id} && values["allowlists/" + id].value == allowlist
    {
      KeysInUse(id);
      var key := Key(ALLOWLIST_PREFIX, id);
      if key in values {
        values := values[key := Entry(Bumped(values[key].version), allowlist)];
      } else {
        values := values[key := Entry(0, allowlist)];
      }
    }

    /** `delete_channel`, which removes the bare id and not the prefixed key. */
    method DeleteChannel(id: string)
      modifies this
      ensures values == old(values) - {id}
    {
      values := values - {id};
    }
  }

  /** The entry list sent to a signer, and the map read back from one: a later entry overwrites an earlier. */
  function ToEntries(m: Values): seq<SignerStateEntry> {
    OrderedMembers(m.Keys);
    EntriesOver(Ordered(m.Keys), m)
  }

  function EntriesOver(keys: seq<string>, m: Values): seq<SignerStateEntry>
    requires forall k :: k in keys ==> k in m
  {
    if keys == [] then []
    else [SignerStateEntry(keys[0], m[keys[0]].value, m[keys[0]].version)] + EntriesOver(keys[1..], m)
  }

  function FromEntries(es: seq<SignerStateEntry>): Values {
    if es == [] then map[]
    else
      var e := es[|es| - 1];
      FromEntries(es[..|es| - 1])[e.key := Entry(e.version, e.value)]
  }
}
