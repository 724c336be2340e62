/** Laws of `merge` and `diff`, and convergence of replicated signer states. */
module PersistTheory {
  import opened Prims
  import opened Persist

  /** Entries of equal key and version carry equal values. */
  ghost predicate Agree(a: Values, b: Values) {
    forall k :: k in a && k in b && a[k].version == b[k].version ==> a[k] == b[k]
  }

  // ---------------------------------------------------------------- laws of merge

  lemma MergeIdempotent(a: Values)
    ensures Merged(a, a) == a
  {
  }

  lemma MergeAssociative(a: Values, b: Values, c: Values)
    ensures Merged(Merged(a, b), c) == Merged(a, Merged(b, c))
  {
    var l, r := Merged(Merged(a, b), c), Merged(a, Merged(b, c));
    assert l.Keys == r.Keys;
    forall k | k in l ensures l[k] == r[k] {
    }
  }

  /** Commutative exactly when equal versions carry equal values. */
  lemma MergeCommutativeExactly(a: Values, b: Values)
    ensures Merged(a, b) == Merged(b, a) <==> Agree(a, b)
  {
    var l, r := Merged(a, b), Merged(b, a);
    assert l.Keys == r.Keys;
    if l == r {
      forall k | k in a && k in b && a[k].version == b[k].version ensures a[k] == b[k] {
        assert l[k] == a[k] && r[k] == b[k];
      }
    }
  }

  /** Merging the result back, as the second of two replicas in turn, reaches the same state exactly if they agree. */
  lemma MergeBackExactly(a: Values, b: Values)
    ensures Merged(b, Merged(a, b)) == Merged(a, b) <==> Agree(a, b)
  {
    var m, back := Merged(a, b), Merged(b, Merged(a, b));
    assert m.Keys == back.Keys;
    if back == m {
      forall k | k in a && k in b && a[k].version == b[k].version ensures a[k] == b[k] {
        assert m[k] == a[k] && back[k] == b[k];
      }
    }
  }

  /** The merge is the only map that has both sides' keys and, at each key, the
      newer entry, or the left one on a tie. */
  lemma MergeIsNewest(a: Values, b: Values, m: Values)
    ensures m == Merged(a, b) <==>
            && m.Keys == a.Keys + b.Keys
            && (forall k :: k in m ==>
                  && (k in a ==> a[k].version <= m[k].version)
                  && (k in b ==> b[k].version <= m[k].version)
                  && ((k in a && m[k] == a[k])
                      || (k in b && m[k] == b[k] && (k in a ==> a[k].version < b[k].version))))
  {
    if m.Keys == a.Keys + b.Keys && forall k :: k in m ==>
                  && (k in a ==> a[k].version <= m[k].version)
                  && (k in b ==> b[k].version <= m[k].version)
                  && ((k in a && m[k] == a[k])
                      || (k in b && m[k] == b[k] && (k in a ==> a[k].version < b[k].version)))
    {
      assert m.Keys == Merged(a, b).Keys;
      forall k | k in m ensures m[k] == Merged(a, b)[k] {
      }
    }
  }

  // ---------------------------------------------------------------- merge against diff

  lemma {:induction false} ChangesOverMembers(keys: seq<string>, a: Values, b: Values)
    requires forall k :: k in keys ==> k in b
    ensures forall c :: c in ChangesOver(keys, a, b) <==>
                        c.key in keys && Newer(a, b, c.key) && c == ChangeAt(a, b, c.key)
  {
    if keys != [] {
      ChangesOverMembers(keys[1..], a, b);
    }
  }

  /** `diff` lists exactly the keys that are missing or outdated, with both entries. */
  lemma DiffExact(a: Values, b: Values)
    ensures forall c :: c in Diff(a, b) <==>
                        && c.key in b && (c.key !in a || a[c.key].version < b[c.key].version)
                        && c.prior == (if c.key in a then Some(a[c.key]) else None)
                        && c.latest == b[c.key]
  {
    OrderedMembers(b.Keys);
    ChangesOverMembers(Ordered(b.Keys), a, b);
  }

  lemma {:induction false} VersionsOfEach(cs: seq<StateChange>)
    ensures |VersionsOf(cs)| == |cs|
    ensures forall k :: 0 <= k < |cs| ==>
              var v := VersionsOf(cs)[k];
              && v.key == cs[k].key && v.latest == cs[k].latest.version
              && v.prior == if cs[k].prior == None then None else Some(cs[k].prior.value.version)
  {
    if cs != [] {
      VersionsOfEach(cs[1..]);
    }
  }

  /** `merge` reports exactly the keys it takes over, in ascending order, with
      the version it had, if any, and the version it now has. */
  lemma ReportExact(a: Values, b: Values)
    ensures var report := VersionsOf(Diff(a, b));
            && (forall i, j :: 0 <= i < j < |report| ==> Less(report[i].key, report[j].key))
            && (forall v :: v in report <==>
                  && v.key in b && Merged(a, b)[v.key].version == v.latest == b[v.key].version
                  && v.prior == (if v.key in a then Some(a[v.key].version) else None)
                  && (v.prior == None || v.prior.value < v.latest))
  {
    var cs := Diff(a, b);
    DiffExact(a, b);
    DiffAscends(a, b);
    VersionsOfEach(cs);
    forall v ensures v in VersionsOf(cs) <==>
                  && v.key in b && Merged(a, b)[v.key].version == v.latest == b[v.key].version
                  && v.prior == (if v.key in a then Some(a[v.key].version) else None)
                  && (v.prior == None || v.prior.value < v.latest)
    {
      ReportedAt(a, b, v);
    }
  }

  lemma ReportedAt(a: Values, b: Values, v: VersionChange)
    ensures v in VersionsOf(Diff(a, b)) <==>
            && v.key in b && Merged(a, b)[v.key].version == v.latest == b[v.key].version
            && v.prior == (if v.key in a then Some(a[v.key].version) else None)
            && (v.prior == None || v.prior.value < v.latest)
  {
    var cs := Diff(a, b);
    DiffExact(a, b);
    VersionsOfEach(cs);
    if k :| 0 <= k < |cs| && VersionsOf(cs)[k] == v {
      assert cs[k] in cs;
    }
    if v.key in b && (v.key !in a || a[v.key].version < b[v.key].version) {
      var c := ChangeAt(a, b, v.key);
      assert c in cs;
      var k :| 0 <= k < |cs| && cs[k] == c;
      assert VersionsOf(cs)[k] in VersionsOf(cs);
    }
  }

  lemma {:induction false} NoChangesOver(keys: seq<string>, a: Values, b: Values)
    requires forall k :: k in keys ==> k in b && !Newer(a, b, k)
    ensures ChangesOver(keys, a, b) == []
  {
    if keys != [] {
      NoChangesOver(keys[1..], a, b);
    }
  }

  /** After a merge there is nothing left to take over. */
  lemma DiffAfterMerge(a: Values, b: Values)
    ensures Diff(Merged(a, b), b) == []
  {
    OrderedMembers(b.Keys);
    NoChangesOver(Ordered(b.Keys), Merged(a, b), b);
  }

  /** The state consisting of the new entries of a change list. */
  function Latest(cs: seq<StateChange>): Values {
    if cs == [] then map[] else Latest(cs[1..])[cs[0].key := cs[0].latest]
  }

  lemma {:induction false} LatestOver(keys: seq<string>, a: Values, b: Values)
    requires forall k :: k in keys ==> k in b
    ensures forall k :: k in Latest(ChangesOver(keys, a, b)) <==> k in keys && Newer(a, b, k)
    ensures forall k :: k in Latest(ChangesOver(keys, a, b)) ==> Latest(ChangesOver(keys, a, b))[k] == b[k]
  {
    if keys != [] {
      LatestOver(keys[1..], a, b);
      var rest := ChangesOver(keys[1..], a, b);
      if Newer(a, b, keys[0]) {
        assert ([ChangeAt(a, b, keys[0])] + rest)[1..] == rest;
      } else {
        assert ChangesOver(keys, a, b) == rest;
      }
    }
  }

  lemma SubmapSuffices(a: Values, b: Values, d: Values)
    requires forall k :: k in d <==> k in b && Newer(a, b, k)
    requires forall k :: k in d ==> d[k] == b[k]
    ensures Merged(a, d) == Merged(a, b)
  {
    assert Merged(a, d).Keys == Merged(a, b).Keys;
    forall k | k in Merged(a, b) ensures Merged(a, d)[k] == Merged(a, b)[k] {
    }
  }

  /** Sending only the difference merges to the same state as sending everything. */
  lemma DiffSuffices(a: Values, b: Values)
    ensures Merged(a, Latest(Diff(a, b))) == Merged(a, b)
  {
    var d := Latest(Diff(a, b));
    assert (forall k :: k in d <==> k in b && Newer(a, b, k)) && (forall k :: k in d ==> d[k] == b[k]) by {
      OrderedMembers(b.Keys);
      LatestOver(Ordered(b.Keys), a, b);
    }
    SubmapSuffices(a, b, d);
  }

  ghost predicate Ascends(keys: seq<string>) {
    forall i, j :: 0 <= i < j < |keys| ==> Less(keys[i], keys[j])
  }

  lemma {:induction false} OrderedAscends(keys: set<string>)
    ensures Ascends(Ordered(keys))
  {
    if keys != {} {
      OrderedAscends(keys - {Least(keys)});
      OrderedMembers(keys - {Least(keys)});
    }
  }

  ghost predicate InKeyOrder(cs: seq<StateChange>) {
    forall i, j :: 0 <= i < j < |cs| ==> Less(cs[i].key, cs[j].key)
  }

  lemma {:induction false} ChangesOverAscend(keys: seq<string>, a: Values, b: Values)
    requires Ascends(keys) && forall k :: k in keys ==> k in b
    ensures InKeyOrder(ChangesOver(keys, a, b))
  {
    if keys != [] {
      ChangesOverAscend(keys[1..], a, b);
      ChangesOverMembers(keys[1..], a, b);
      var rest := ChangesOver(keys[1..], a, b);
      forall j | 0 <= j < |rest| ensures Less(keys[0], rest[j].key) {
        assert rest[j] in rest;
      }
      assert InKeyOrder([ChangeAt(a, b, keys[0])] + rest);
      assert InKeyOrder([] + rest);
    }
  }

  /** The change lists, of `diff` and so of `merge`, come in strictly ascending key order. */
  lemma DiffAscends(a: Values, b: Values)
    ensures InKeyOrder(Diff(a, b))
  {
    OrderedMembers(b.Keys);
    OrderedAscends(b.Keys);
    ChangesOverAscend(Ordered(b.Keys), a, b);
  }

  // ---------------------------------------------------------------- entry lists

  lemma {:induction false} FromEntriesOver(keys: seq<string>, m: Values)
    requires forall k :: k in keys ==> k in m
    ensures FromEntries(EntriesOver(keys, m)) == map k | k in keys :: m[k]
  {
    if keys != [] {
      EntriesOverSnoc(keys, m);
      var n := |keys| - 1;
      FromEntriesOver(keys[..n], m);
      assert keys == keys[..n] + [keys[n]];
    }
  }

  lemma {:induction false} EntriesOverSnoc(keys: seq<string>, m: Values)
    requires keys != [] && forall k :: k in keys ==> k in m
    ensures var n := |keys| - 1;
            EntriesOver(keys, m) ==
            EntriesOver(keys[..n], m) + [SignerStateEntry(keys[n], m[keys[n]].value, m[keys[n]].version)]
  {
    if |keys| > 1 {
      EntriesOverSnoc(keys[1..], m);
      assert keys[1..][..|keys| - 2] == keys[..|keys| - 1][1..];
    }
  }

  /** A state survives the transfer as an entry list. */
  lemma EntriesRoundTrip(m: Values)
    ensures FromEntries(ToEntries(m)) == m
  {
    OrderedMembers(m.Keys);
    FromEntriesOver(Ordered(m.Keys), m);
  }

  lemma {:induction false} EntriesOverEach(keys: seq<string>, m: Values)
    requires forall k :: k in keys ==> k in m
    ensures |EntriesOver(keys, m)| == |keys|
    ensures forall i :: 0 <= i < |keys| ==>
              EntriesOver(keys, m)[i] == SignerStateEntry(keys[i], m[keys[i]].value, m[keys[i]].version)
  {
    if keys != [] {
      EntriesOverEach(keys[1..], m);
    }
  }

  /** The entry list has one entry for each key, in ascending order. */
  lemma ToEntriesExact(m: Values)
    ensures var es := ToEntries(m);
            && |es| == |m|
            && (forall i, j :: 0 <= i < j < |es| ==> Less(es[i].key, es[j].key))
            && (forall i :: 0 <= i < |es| ==>
                  es[i].key in m && es[i].value == m[es[i].key].value && es[i].version == m[es[i].key].version)
  {
    OrderedMembers(m.Keys);
    OrderedAscends(m.Keys);
    EntriesOverEach(Ordered(m.Keys), m);
  }

  /** Of several entries with one key, the last is read. */
  lemma {:induction false} FromEntriesLast(es: seq<SignerStateEntry>, i: nat)
    requires i < |es| && forall j :: i < j < |es| ==> es[j].key != es[i].key
    ensures es[i].key in FromEntries(es)
    ensures FromEntries(es)[es[i].key] == Entry(es[i].version, es[i].value)
  {
    if i < |es| - 1 {
      FromEntriesLast(es[..|es| - 1], i);
    }
  }

  lemma {:induction false} FromEntriesKeys(es: seq<SignerStateEntry>)
    ensures forall k :: k in FromEntries(es) <==> exists i :: 0 <= i < |es| && es[i].key == k
  {
    if es != [] {
      var n := |es| - 1;
      FromEntriesKeys(es[..n]);
      forall k ensures k in FromEntries(es) <==> exists i :: 0 <= i < |es| && es[i].key == k {
        if i :| 0 <= i < |es| && es[i].key == k {
          assert i < n ==> es[..n][i].key == k;
        }
        if k in FromEntries(es[..n]) {
          var i :| 0 <= i < n && es[..n][i].key == k;
          assert es[i].key == k;
        }
      }
    }
  }

  // ---------------------------------------------------------------- keys

  /** The order of keys is that of their first difference, or of a proper prefix. */
  lemma {:induction false} LessExactly(a: string, b: string)
    ensures Less(a, b) <==>
            (a < b || exists k :: 0 <= k < |a| && k < |b| && a[..k] == b[..k] && a[k] < b[k])
  {
    if a != [] && b != [] && a[0] == b[0] {
      var x, y := a[1..], b[1..];
      LessExactly(x, y);
      assert a == [a[0]] + x && b == [b[0]] + y;
      if k :| 0 <= k < |x| && k < |y| && x[..k] == y[..k] && x[k] < y[k] {
        assert a[..k + 1] == [a[0]] + x[..k] && b[..k + 1] == [b[0]] + y[..k];
        assert a[k + 1] < b[k + 1];
      }
      if k :| 0 <= k < |a| && k < |b| && a[..k] == b[..k] && a[k] < b[k] {
        assert x[..k - 1] == a[..k][1..] && y[..k - 1] == b[..k][1..];
        assert x[k - 1] < y[k - 1];
      }
    } else if a != [] && b != [] {
      assert a[..0] == b[..0];
      assert forall k :: 0 < k < |a| && k < |b| ==> a[..k][0] == a[0] && b[..k][0] == b[0];
    }
  }

  /** Keys of different kinds or ids never coincide, whatever the ids contain. */
  lemma KeysDistinct(p: string, i: string, q: string, j: string)
    requires '/' !in p && '/' !in q && Key(p, i) == Key(q, j)
    ensures p == q && i == j
  {
    var k := Key(p, i);
    assert k[|p|] == '/' && k[|q|] == '/';
    assert forall n :: 0 <= n < |p| ==> k[n] == p[n] && p[n] in p;
    assert forall n :: 0 <= n < |q| ==> k[n] == q[n] && q[n] in q;
    assert |p| == |q|;
    assert p == k[..|p|] && q == k[..|q|] && i == k[|p| + 1..] && j == k[|q| + 1..];
  }

  // ---------------------------------------------------------------- updates and deletions

  /** An update stores the value under the next version, or 0 after the last, and touches no other key. */
  lemma UpdatedExactly(m: Values, k: string, v: Json)
    requires k in m
    ensures var u := Updated(m, k, v);
            && u.Keys == m.Keys && u[k].value == v
            && u[k].version == (if m[k].version < 0xFFFF_FFFF_FFFF_FFFF then m[k].version + 1 else 0)
            && forall j :: j in m && j != k ==> u[j] == m[j]
  {
  }

  /** An insertion stores the value under version 0 and touches no other key. */
  lemma InsertedExactly(m: Values, k: string, v: Json)
    ensures var u := Inserted(m, k, v);
            && u.Keys == m.Keys + {k} && u[k].value == v && u[k].version == 0
            && forall j :: j in m && j != k ==> u[j] == m[j]
  {
  }

  /** A replica that was no newer takes over an update exactly if it does not have
      the key, the version did not wrap, or it has that very entry already. */
  lemma UpdateTravelsExactly(a: Values, m: Values, k: string, v: Json)
    requires k in m && (k in a ==> a[k].version <= m[k].version)
    ensures var u := Updated(m, k, v);
            Merged(a, u)[k] == u[k] <==> k !in a || m[k].version < U64_MAX || a[k] == u[k]
  {
  }

  /** For a replica in the state before the update: it reaches the state after it
      exactly if the version did not wrap, and stays as it is otherwise. */
  lemma UpdateReachesExactly(m: Values, k: string, v: Json)
    requires k in m
    ensures Merged(m, Updated(m, k, v)) == Updated(m, k, v) <==> m[k].version < U64_MAX
    ensures m[k].version == U64_MAX ==> Merged(m, Updated(m, k, v)) == m
  {
    var u := Updated(m, k, v);
    assert Merged(m, u).Keys == u.Keys == m.Keys;
    if m[k].version < U64_MAX {
      forall j | j in u ensures Merged(m, u)[j] == u[j] {
      }
    } else {
      assert u[k].version == 0;
      forall j | j in m ensures Merged(m, u)[j] == m[j] {
      }
    }
  }

  /** `delete_channel` never removes a channel; it removes something iff the bare id is itself a stored key. */
  lemma DeleteChannelExactly(m: Values, id: string)
    ensures Key(CHANNEL_PREFIX, id) in m ==> Key(CHANNEL_PREFIX, id) in m - {id}
    ensures m - {id} == m <==> id !in m
  {
    assert |Key(CHANNEL_PREFIX, id)| > |id|;
    if id !in m {
      assert (m - {id}).Keys == m.Keys;
    }
  }

  // ---------------------------------------------------------------- replicated runs

  /** One local write: an entry stored under a key. */
  datatype Write = Write(key: string, entry: Entry)

  /** A state, and all writes that went into it. */
  datatype Replica = Replica(values: Values, seen: set<Write>)

  /** Replicas, states under way between them, and all writes ever made. */
  datatype World = World(replicas: seq<Replica>, flight: seq<Replica>, all: set<Write>)

  datatype Step =
    | Insert(r: nat, key: string, value: Json)
    | Update(r: nat, key: string, value: Json)
    | Ship(r: nat, keys: set<string>)
    | Deliver(m: nat, r: nat)

  function Restrict(p: Replica, keys: set<string>): Replica {
    Replica(map k | k in p.values && k in keys :: p.values[k], set w | w in p.seen && w.key in keys)
  }

  function Join(p: Replica, q: Replica): Replica {
    Replica(Merged(p.values, q.values), p.seen + q.seen)
  }

  /** Keys are inserted where nobody has them, and updated only at a replica
      holding the newest version, below the point where versions wrap. Any part
      of a state may be shipped at any time, and delivered anywhere, late, out of
      order and repeatedly. */
  ghost predicate Enabled(w: World, step: Step) {
    match step
    case Insert(r, k, _) => r < |w.replicas| && forall s :: 0 <= s < |w.replicas| ==> k !in w.replicas[s].values
    case Update(r, k, _) =>
      && r < |w.replicas| && k in w.replicas[r].values
      && w.replicas[r].values[k].version < U64_MAX
      && forall s :: 0 <= s < |w.replicas| && k in w.replicas[s].values ==>
           w.replicas[s].values[k].version <= w.replicas[r].values[k].version
    case Ship(r, _) => r < |w.replicas|
    case Deliver(m, r) => m < |w.flight| && r < |w.replicas|
  }

  ghost function Written(w: World, r: nat, k: string, e: Entry): World
    requires r < |w.replicas|
  {
    var p, x := w.replicas[r], Write(k, e);
    w.(replicas := w.replicas[r := Replica(p.values[k := e], p.seen + {x})], all := w.all + {x})
  }

  ghost function Apply(w: World, step: Step): World
    requires Enabled(w, step)
  {
    match step
    case Insert(r, k, v) => Written(w, r, k, Inserted(w.replicas[r].values, k, v)[k])
    case Update(r, k, v) => Written(w, r, k, Updated(w.replicas[r].values, k, v)[k])
    case Ship(r, keys) => w.(flight := w.flight + [Restrict(w.replicas[r], keys)])
    case Deliver(m, r) => w.(replicas := w.replicas[r := Join(w.replicas[r], w.flight[m])])
  }

  ghost function Start(n: nat): World {
    World(seq(n, _ => Replica(map[], {})), [], {})
  }

  ghost function Run(n: nat, steps: seq<Step>): Option<World> {
    if steps == [] then Some(Start(n))
    else
      var before := Run(n, steps[..|steps| - 1]);
      var step := steps[|steps| - 1];
      if before.Some? && Enabled(before.value, step) then Some(Apply(before.value, step)) else None
  }

  /** The values are, key by key, the newest of the writes seen. */
  ghost predicate Reflects(p: Replica, all: set<Write>) {
    && p.seen <= all
    && (forall k :: k in p.values ==> Write(k, p.values[k]) in p.seen)
    && (forall x :: x in p.seen ==> x.key in p.values && x.entry.version <= p.values[x.key].version)
  }

  /** No version of a key is written twice. */
  ghost predicate WrittenOnce(all: set<Write>) {
    forall x, y :: x in all && y in all && x.key == y.key && x.entry.version == y.entry.version ==> x == y
  }

  /** Some replica is at least as new as write `x`. */
  ghost predicate Covered(rs: seq<Replica>, x: Write) {
    exists s :: 0 <= s < |rs| && x.key in rs[s].values && x.entry.version <= rs[s].values[x.key].version
  }

  ghost predicate Inv(w: World) {
    && WrittenOnce(w.all)
    && (forall x :: x in w.all ==> Covered(w.replicas, x))
    && (forall r :: 0 <= r < |w.replicas| ==> Reflects(w.replicas[r], w.all))
    && (forall m :: 0 <= m < |w.flight| ==> Reflects(w.flight[m], w.all))
  }

  lemma JoinReflects(p: Replica, q: Replica, all: set<Write>)
    requires Reflects(p, all) && Reflects(q, all)
    ensures Reflects(Join(p, q), all)
  {
    var j := Join(p, q);
    forall x | x in j.seen ensures x.key in j.values && x.entry.version <= j.values[x.key].version {
    }
  }

  lemma WriteReflects(p: Replica, all: set<Write>, k: string, e: Entry)
    requires Reflects(p, all) && forall y :: y in all && y.key == k ==> y.entry.version < e.version
    ensures Reflects(Replica(p.values[k := e], p.seen + {Write(k, e)}), all + {Write(k, e)})
  {
  }

  /** No version of the replica decreases. */
  ghost predicate Grows(a: Values, b: Values) {
    forall k :: k in a ==> k in b && a[k].version <= b[k].version
  }

  lemma CoverageStays(rs: seq<Replica>, r: nat, p: Replica, x: Write)
    requires r < |rs| && Covered(rs, x) && Grows(rs[r].values, p.values)
    ensures Covered(rs[r := p], x)
  {
    var s :| 0 <= s < |rs| && x.key in rs[s].values && x.entry.version <= rs[s].values[x.key].version;
    assert x.key in rs[r := p][s].values && x.entry.version <= rs[r := p][s].values[x.key].version;
  }

  lemma ReflectsMore(ps: seq<Replica>, all: set<Write>, x: Write)
    requires forall m :: 0 <= m < |ps| ==> Reflects(ps[m], all)
    ensures forall m :: 0 <= m < |ps| ==> Reflects(ps[m], all + {x})
  {
    forall m | 0 <= m < |ps| ensures Reflects(ps[m], all + {x}) {
      assert Reflects(ps[m], all);
    }
  }

  /** A local write of a version above all others of its key keeps the invariant. */
  lemma WriteKeepsInv(w: World, r: nat, k: string, e: Entry)
    requires Inv(w) && r < |w.replicas|
    requires forall s :: 0 <= s < |w.replicas| && k in w.replicas[s].values ==>
               w.replicas[s].values[k].version < e.version
    ensures Inv(Written(w, r, k, e))
  {
    var p, x := w.replicas[r], Write(k, e);
    var p' := Replica(p.values[k := e], p.seen + {x});
    forall y | y in w.all && y.key == k ensures y.entry.version < e.version {
      assert Covered(w.replicas, y);
    }
    WriteReflects(p, w.all, k, e);
    ReflectsMore(w.replicas, w.all, x);
    ReflectsMore(w.flight, w.all, x);
    assert WrittenOnce(w.all + {x});
    forall y | y in w.all + {x} ensures Covered(w.replicas[r := p'], y) {
      if y == x {
        assert k in w.replicas[r := p'][r].values;
      } else {
        CoverageStays(w.replicas, r, p', y);
      }
    }
  }

  lemma DeliverKeepsInv(w: World, m: nat, r: nat)
    requires Inv(w) && Enabled(w, Deliver(m, r))
    ensures Inv(Apply(w, Deliver(m, r)))
  {
    var p' := Join(w.replicas[r], w.flight[m]);
    JoinReflects(w.replicas[r], w.flight[m], w.all);
    forall y | y in w.all ensures Covered(w.replicas[r := p'], y) {
      CoverageStays(w.replicas, r, p', y);
    }
  }

  lemma RestrictReflects(p: Replica, keys: set<string>, all: set<Write>)
    requires Reflects(p, all)
    ensures Reflects(Restrict(p, keys), all)
  {
  }

  lemma ShipKeepsInv(w: World, r: nat, keys: set<string>)
    requires Inv(w) && Enabled(w, Ship(r, keys))
    ensures Inv(Apply(w, Ship(r, keys)))
  {
    RestrictReflects(w.replicas[r], keys, w.all);
  }

  lemma InsertKeepsInv(w: World, r: nat, k: string, v: Json)
    requires Inv(w) && Enabled(w, Insert(r, k, v))
    ensures Inv(Apply(w, Insert(r, k, v)))
  {
    WriteKeepsInv(w, r, k, Entry(0, v));
  }

  lemma UpdateKeepsInv(w: World, r: nat, k: string, v: Json)
    requires Inv(w) && Enabled(w, Update(r, k, v))
    ensures Inv(Apply(w, Update(r, k, v)))
  {
    var e := Updated(w.replicas[r].values, k, v)[k];
    assert e.version == w.replicas[r].values[k].version + 1;
    WriteKeepsInv(w, r, k, e);
  }

  lemma StepKeepsInv(w: World, step: Step)
    requires Inv(w) && Enabled(w, step)
    ensures Inv(Apply(w, step))
  {
    match step
    case Insert(r, k, v) => InsertKeepsInv(w, r, k, v);
    case Update(r, k, v) => UpdateKeepsInv(w, r, k, v);
    case Ship(r, keys) => ShipKeepsInv(w, r, keys);
    case Deliver(m, r) => DeliverKeepsInv(w, m, r);
  }

  lemma {:induction false} RunKeepsInv(n: nat, steps: seq<Step>)
    requires Run(n, steps).Some?
    ensures Inv(Run(n, steps).value)
  {
    if steps != [] {
      var m := |steps| - 1;
      RunKeepsInv(n, steps[..m]);
      StepKeepsInv(Run(n, steps[..m]).value, steps[m]);
    }
  }

  lemma StepGrows(w: World, step: Step, r: nat)
    requires Enabled(w, step) && r < |w.replicas|
    ensures |Apply(w, step).replicas| == |w.replicas|
    ensures Grows(w.replicas[r].values, Apply(w, step).replicas[r].values)
  {
  }

  /** In every run, between any two points, no replica loses a key or goes back in a version. */
  lemma {:induction false} VersionsNeverDecrease(n: nat, steps: seq<Step>, m: nat, r: nat)
    requires m <= |steps| && r < n && Run(n, steps).Some?
    ensures Run(n, steps[..m]).Some?
    ensures |Run(n, steps[..m]).value.replicas| == |Run(n, steps).value.replicas| == n
    ensures Grows(Run(n, steps[..m]).value.replicas[r].values, Run(n, steps).value.replicas[r].values)
  {
    var last := |steps| - 1;
    if m < |steps| {
      VersionsNeverDecrease(n, steps[..last], m, r);
      assert steps[..last][..m] == steps[..m];
      StepGrows(Run(n, steps[..last]).value, steps[last], r);
    } else {
      assert steps[..m] == steps;
      if steps != [] {
        VersionsNeverDecrease(n, steps[..last], last, r);
        StepGrows(Run(n, steps[..last]).value, steps[last], r);
      }
    }
  }

  /** The entry that a write step stores. */
  ghost function NewEntry(w: World, step: Step): Entry
    requires Enabled(w, step) && (step.Insert? || step.Update?)
  {
    match step
    case Insert(_, _, v) => Entry(0, v)
    case Update(r, k, v) => Entry(w.replicas[r].values[k].version + 1, v)
  }

  /** After a write step the replica holds the written value, and all else is as it was. */
  lemma WriteStored(w: World, step: Step)
    requires Enabled(w, step) && (step.Insert? || step.Update?)
    ensures var p, e := w.replicas[step.r], NewEntry(w, step);
            && e.value == step.value
            && Apply(w, step).replicas ==
               w.replicas[step.r := Replica(p.values[step.key := e], p.seen + {Write(step.key, e)})]
            && Apply(w, step).flight == w.flight
  {
  }

  /** And nobody wrote this version of the key, or a later one, before. */
  lemma WriteIsNewest(w: World, step: Step)
    requires Inv(w) && Enabled(w, step) && (step.Insert? || step.Update?)
    ensures forall x :: x in w.all && x.key == step.key ==> x.entry.version < NewEntry(w, step).version
  {
    forall x | x in w.all && x.key == step.key ensures x.entry.version < NewEntry(w, step).version {
      assert Covered(w.replicas, x);
    }
  }

  lemma StepSees(w: World, step: Step, r: nat)
    requires Enabled(w, step) && r < |w.replicas|
    ensures |Apply(w, step).replicas| == |w.replicas|
    ensures w.replicas[r].seen <= Apply(w, step).replicas[r].seen
  {
  }

  lemma {:induction false} SeenStays(n: nat, steps: seq<Step>, m: nat, r: nat)
    requires m <= |steps| && Run(n, steps).Some?
    ensures Run(n, steps[..m]).Some?
    ensures |Run(n, steps[..m]).value.replicas| == |Run(n, steps).value.replicas|
    ensures r < |Run(n, steps).value.replicas| ==>
              Run(n, steps[..m]).value.replicas[r].seen <= Run(n, steps).value.replicas[r].seen
  {
    if m < |steps| {
      var last := |steps| - 1;
      var w := Run(n, steps[..last]).value;
      SeenStays(n, steps[..last], m, r);
      assert steps[..last][..m] == steps[..m];
      StepSees(w, steps[last], if r < |w.replicas| then r else 0);
    } else {
      assert steps[..m] == steps;
    }
  }

  /** What has seen a write holds it or a later one. */
  lemma SeenIsHeld(p: Replica, all: set<Write>, x: Write)
    requires WrittenOnce(all) && Reflects(p, all) && x in p.seen
    ensures x.key in p.values && (p.values[x.key] == x.entry || x.entry.version < p.values[x.key].version)
  {
    assert Write(x.key, p.values[x.key]) in all;
  }

  /** The write that step `m` of a run makes. */
  ghost function WriteAt(n: nat, steps: seq<Step>, m: nat): Write
    requires m < |steps| && Run(n, steps[..m + 1]).Some? && (steps[m].Insert? || steps[m].Update?)
  {
    RunStep(n, steps, m);
    Write(steps[m].key, NewEntry(Run(n, steps[..m]).value, steps[m]))
  }

  lemma RunStep(n: nat, steps: seq<Step>, m: nat)
    requires m < |steps| && Run(n, steps[..m + 1]).Some?
    ensures Run(n, steps[..m]).Some? && Enabled(Run(n, steps[..m]).value, steps[m])
    ensures Run(n, steps[..m + 1]) == Some(Apply(Run(n, steps[..m]).value, steps[m]))
  {
    assert steps[..m + 1][..m] == steps[..m];
  }

  lemma WriteSeen(n: nat, steps: seq<Step>, m: nat)
    requires m < |steps| && Run(n, steps[..m + 1]).Some? && (steps[m].Insert? || steps[m].Update?)
    ensures steps[m].r < |Run(n, steps[..m + 1]).value.replicas|
    ensures WriteAt(n, steps, m) in Run(n, steps[..m + 1]).value.replicas[steps[m].r].seen
  {
    RunStep(n, steps, m);
    WriteStored(Run(n, steps[..m]).value, steps[m]);
  }

  /** In every run, whatever happens after a write: the writing replica, and every
      other that the write has reached, holds the written value or a later version. */
  lemma WriteSurvives(n: nat, steps: seq<Step>, m: nat)
    requires m < |steps| && Run(n, steps).Some? && (steps[m].Insert? || steps[m].Update?)
    ensures Run(n, steps[..m + 1]).Some?
    ensures var x, rs := WriteAt(n, steps, m), Run(n, steps).value.replicas;
            && x.key == steps[m].key && x.entry.value == steps[m].value
            && steps[m].r < |rs| && x in rs[steps[m].r].seen
            && forall s :: 0 <= s < |rs| && x in rs[s].seen ==>
                 && x.key in rs[s].values
                 && (rs[s].values[x.key] == x.entry || x.entry.version < rs[s].values[x.key].version)
  {
    SeenStays(n, steps, m + 1, steps[m].r);
    WriteSeen(n, steps, m);
    RunKeepsInv(n, steps);
    var x, now := WriteAt(n, steps, m), Run(n, steps).value;
    forall s | 0 <= s < |now.replicas| && x in now.replicas[s].seen
      ensures x.key in now.replicas[s].values
      ensures now.replicas[s].values[x.key] == x.entry || x.entry.version < now.replicas[s].values[x.key].version
    {
      SeenIsHeld(now.replicas[s], now.all, x);
    }
  }

  /** What is shipped is the chosen part of the state, and a delivery merges it. */
  lemma ShipmentArrives(w: World, r: nat, keys: set<string>, s: nat)
    requires r < |w.replicas| && s < |w.replicas|
    ensures var sent := Apply(w, Ship(r, keys));
            && |sent.flight| == |w.flight| + 1 && sent.replicas == w.replicas
            && var part := sent.flight[|w.flight|].values;
            && part.Keys == w.replicas[r].values.Keys * keys
            && (forall k :: k in part ==> part[k] == w.replicas[r].values[k])
            && Apply(sent, Deliver(|w.flight|, s)).replicas[s].values == Merged(w.replicas[s].values, part)
  {
  }

  /** In every run, any two states, at rest or under way, agree: equal key and
      version mean equal value. */
  lemma StatesAgree(n: nat, steps: seq<Step>)
    requires Run(n, steps).Some?
    ensures var w := Run(n, steps).value;
            forall p, q :: p in w.replicas + w.flight && q in w.replicas + w.flight ==> Agree(p.values, q.values)
  {
    RunKeepsInv(n, steps);
    var w := Run(n, steps).value;
    forall p, q | p in w.replicas + w.flight && q in w.replicas + w.flight ensures Agree(p.values, q.values) {
      ReflectionsAgree(p, q, w.all);
    }
  }

  lemma ReflectionsAgree(p: Replica, q: Replica, all: set<Write>)
    requires WrittenOnce(all) && Reflects(p, all) && Reflects(q, all)
    ensures Agree(p.values, q.values)
  {
    forall k | k in p.values && k in q.values && p.values[k].version == q.values[k].version
      ensures p.values[k] == q.values[k]
    {
      assert Write(k, p.values[k]) in all && Write(k, q.values[k]) in all;
    }
  }

  /** Strong convergence: in every run, two replicas that have seen the same
      writes are in the same state, whatever the order of deliveries was. */
  lemma SameWritesSameState(n: nat, steps: seq<Step>, r: nat, s: nat)
    requires Run(n, steps).Some?
    requires r < |Run(n, steps).value.replicas| && s < |Run(n, steps).value.replicas|
    requires Run(n, steps).value.replicas[r].seen == Run(n, steps).value.replicas[s].seen
    ensures Run(n, steps).value.replicas[r].values == Run(n, steps).value.replicas[s].values
  {
    RunKeepsInv(n, steps);
    var w := Run(n, steps).value;
    ReflectionsEqual(w.replicas[r], w.replicas[s], w.all);
  }

  /** The writes seen determine the values. */
  lemma ReflectionsEqual(p: Replica, q: Replica, all: set<Write>)
    requires WrittenOnce(all) && Reflects(p, all) && Reflects(q, all) && p.seen == q.seen
    ensures p.values == q.values
  {
    SeenCovers(p, q, all);
    SeenCovers(q, p, all);
    ReflectionsAgree(p, q, all);
    assert p.values.Keys == q.values.Keys;
  }

  lemma SeenCovers(p: Replica, q: Replica, all: set<Write>)
    requires Reflects(p, all) && Reflects(q, all) && p.seen <= q.seen
    ensures Grows(p.values, q.values)
  {
    forall k | k in p.values ensures k in q.values && p.values[k].version <= q.values[k].version {
      assert Write(k, p.values[k]) in q.seen;
    }
  }

  /** In every run, two replicas that merge each other's states become equal,
      at once or one after the other. */
  lemma MutualMergeConverges(n: nat, steps: seq<Step>, r: nat, s: nat)
    requires Run(n, steps).Some?
    requires r < |Run(n, steps).value.replicas| && s < |Run(n, steps).value.replicas|
    ensures var rs := Run(n, steps).value.replicas;
            && Merged(rs[r].values, rs[s].values) == Merged(rs[s].values, rs[r].values)
            && Merged(rs[s].values, Merged(rs[r].values, rs[s].values)) == Merged(rs[r].values, rs[s].values)
  {
    StatesAgree(n, steps);
    var rs := Run(n, steps).value.replicas;
    assert rs[r] in rs + Run(n, steps).value.flight && rs[s] in rs + Run(n, steps).value.flight;
    MergeCommutativeExactly(rs[r].values, rs[s].values);
    MergeBackExactly(rs[r].values, rs[s].values);
  }
}
