/** The coalescing table of in-flight name lookups (`domain-name-actor/src/result_cache.rs`).
    A responder is a one-shot channel; here it is an id, and every `send` on it is recorded as
    a delivery. Each call of the closure `f` that starts a lookup is recorded as a launch of
    its key. */
module ResultCaches {
  import opened Bytes
  import opened Wrappers

  /** `std::net::IpAddr`; the cache never looks inside. */
  datatype IpAddr = V4(a: uint8, b: uint8, c: uint8, d: uint8) | V6(bytes: seq<uint8>)

  /** The id of a `oneshot::Sender<Option<IpAddr>>`. */
  type ResponderId = nat

  /** What a lookup ends with: an address or none. */
  type Answer = Option<IpAddr>

  /** `CacheItem`: the responders still waiting for the key, in subscription order, or a
      stored result (a case the code never creates). */
  datatype CacheItem = Pending(responders: seq<ResponderId>) | Resolved(result: Answer)

  /** `CacheItem::new_pending`: one waiting responder. */
  function NewPending(responder: ResponderId): (item: CacheItem)
    ensures item.Pending? && |item.responders| == 1 && item.responders[0] == responder
  {
    Pending([responder])
  }

  /** One `send` of a result on a responder. */
  datatype Delivery = Delivery(responder: ResponderId, result: Answer)

  /** The table, followed by what it has done so far: every send, in order, and every key
      whose lookup was launched, in order. */
  datatype CacheState<K> = CacheState(entries: map<K, CacheItem>, sent: seq<Delivery>,
                                      launched: seq<K>)

  /** `ResultCache::new`: an empty table that has done nothing yet. */
  function Empty<K>(): (s: CacheState<K>)
    ensures s.entries == map[] && s.sent == [] && s.launched == []
  {
    CacheState(map[], [], [])
  }

  /** The sends made to `responders`, one each, in order. */
  function Deliveries(responders: seq<ResponderId>, result: Answer): (r: seq<Delivery>)
    ensures |r| == |responders|
    ensures forall i :: 0 <= i < |r| ==> r[i] == Delivery(responders[i], result)
  {
    if responders == [] then []
    else [Delivery(responders[0], result)] + Deliveries(responders[1..], result)
  }

  /** `subscribe`: a new key gets a pending entry for the responder and one launch; a pending
      key gets the responder appended and no launch; a resolved key reaches `todo!`. */
  function Subscribed<K>(s: CacheState<K>, key: K, responder: ResponderId): (r: Result<CacheState<K>>)
    ensures r.Err? <==> key in s.entries && s.entries[key].Resolved?
    ensures r.Ok? ==>
      && r.value.entries.Keys == s.entries.Keys + {key}
      && (forall k :: k in s.entries && k != key ==> r.value.entries[k] == s.entries[k])
      && r.value.entries[key].Pending?
      && r.value.entries[key].responders
           == (if key in s.entries then s.entries[key].responders else []) + [responder]
      && r.value.sent == s.sent
      && r.value.launched == s.launched + (if key in s.entries then [] else [key])
  {
    if key !in s.entries then
      Ok(s.(entries := s.entries[key := NewPending(responder)], launched := s.launched + [key]))
    else
      match s.entries[key]
      case Pending(responders) => Ok(s.(entries := s.entries[key := Pending(responders + [responder])]))
      case Resolved(_) => Err(Panic)
  }

  /** `notify`: a pending key is removed and each of its responders is sent the result once, in
      subscription order; an absent key changes nothing; a resolved key reaches `todo!`. */
  function Notified<K>(s: CacheState<K>, key: K, result: Answer): (r: Result<CacheState<K>>)
    ensures r.Err? <==> key in s.entries && s.entries[key].Resolved?
    ensures key !in s.entries ==> r == Ok(s)
    ensures r.Ok? && key in s.entries ==>
      && r.value.entries == s.entries - {key}
      && r.value.sent == s.sent + Deliveries(s.entries[key].responders, result)
      && r.value.launched == s.launched
  {
    if key !in s.entries then Ok(s)
    else
      match s.entries[key]
      case Pending(responders) =>
        Ok(s.(entries := s.entries - {key}, sent := s.sent + Deliveries(responders, result)))
      case Resolved(_) => Err(Panic)
  }

  /* ---------------------------------------------------------------- invariant */

  /** The responders waiting anywhere in the table. */
  ghost function Waiting<K>(m: map<K, CacheItem>): multiset<ResponderId>
    decreases |m|
  {
    if m == map[] then multiset{}
    else
      var k := Pick(m.Keys);
      Responders(m[k]) + Waiting(m - {k})
  }

  /** Some element of a non-empty set. */
  ghost function Pick<K>(keys: set<K>): (k: K)
    requires keys != {}
    ensures k in keys
  {
    var k :| k in keys; k
  }

  function Responders(item: CacheItem): multiset<ResponderId> {
    if item.Pending? then multiset(item.responders) else multiset{}
  }

  /** Any one key's responders can be taken out of the table first. */
  lemma {:induction false} WaitingRemove<K>(m: map<K, CacheItem>, k: K)
    requires k in m
    ensures Waiting(m) == Responders(m[k]) + Waiting(m - {k})
    decreases |m|
  {
    var j := Pick(m.Keys);
    if j != k {
      var mj, mk := m - {j}, m - {k};
      assert mj.Keys == m.Keys - {j} && mk.Keys == m.Keys - {k};
      assert k in mj && j in mk && |mj| < |m| && |mk| < |m|;
      WaitingRemove(mj, k);
      WaitingRemove(mk, j);
      var rest := Waiting(mj - {k});
      RemoveBoth(m, j, k);
      calc {
        Waiting(m);
        Responders(m[j]) + Waiting(mj);
        Responders(m[j]) + (Responders(m[k]) + rest);
        Responders(m[k]) + (Responders(m[j]) + rest);
        Responders(m[k]) + Waiting(mk);
      }
    }
  }

  /** Removing two keys in either order gives the same map. */
  lemma RemoveBoth<K>(m: map<K, CacheItem>, j: K, k: K)
    ensures m - {j} - {k} == m - {k} - {j}
  {
  }

  /** Setting a key and then removing it is removing it. */
  lemma UpdateRemove<K>(m: map<K, CacheItem>, k: K, v: CacheItem)
    ensures m[k := v] - {k} == m - {k}
  {
  }

  /** Removing an absent key changes nothing. */
  lemma AbsentRemove<K>(m: map<K, CacheItem>, k: K)
    requires k !in m
    ensures m - {k} == m
  {
  }

  /** The table only ever holds pending entries with somebody waiting: `Resolved` is never
      created, so both `todo!` branches are unreachable. */
  predicate Inv<K>(s: CacheState<K>) {
    forall k :: k in s.entries ==> s.entries[k].Pending? && s.entries[k].responders != []
  }

  lemma SubscribePreserves<K>(s: CacheState<K>, key: K, responder: ResponderId)
    requires Inv(s)
    ensures Subscribed(s, key, responder).Ok? && Inv(Subscribed(s, key, responder).value)
  {
  }

  lemma NotifyPreserves<K>(s: CacheState<K>, key: K, result: Answer)
    requires Inv(s)
    ensures Notified(s, key, result).Ok? && Inv(Notified(s, key, result).value)
  {
  }

  /** Subscribing adds the responder to those waiting. */
  lemma SubscribeWaiting<K>(s: CacheState<K>, key: K, responder: ResponderId)
    requires Inv(s)
    ensures Subscribed(s, key, responder).Ok?
    ensures Waiting(Subscribed(s, key, responder).value.entries) == Waiting(s.entries) + multiset{responder}
  {
    var t := Subscribed(s, key, responder).value;
    WaitingRemove(t.entries, key);
    UpdateRemove(s.entries, key, t.entries[key]);
    assert t.entries == s.entries[key := t.entries[key]];
    if key in s.entries {
      WaitingRemove(s.entries, key);
    } else {
      AbsentRemove(s.entries, key);
    }
  }

  /** The responders a send went to, in order. */
  function Recipients(ds: seq<Delivery>): (r: seq<ResponderId>)
    ensures |r| == |ds| && forall i :: 0 <= i < |ds| ==> r[i] == ds[i].responder
  {
    seq(|ds|, i requires 0 <= i < |ds| => ds[i].responder)
  }

  lemma RecipientsAppend(a: seq<Delivery>, b: seq<Delivery>)
    ensures Recipients(a + b) == Recipients(a) + Recipients(b)
  {
  }

  /** Notifying moves the key's responders from waiting to delivered. */
  lemma NotifyWaiting<K>(s: CacheState<K>, key: K, result: Answer)
    requires Inv(s)
    ensures Notified(s, key, result).Ok?
    ensures var t := Notified(s, key, result).value;
      Waiting(t.entries) + multiset(Recipients(t.sent)) == Waiting(s.entries) + multiset(Recipients(s.sent))
  {
    if key in s.entries {
      var t := Notified(s, key, result).value;
      var rs := s.entries[key].responders;
      WaitingRemove(s.entries, key);
      RecipientsAppend(s.sent, Deliveries(rs, result));
      assert Recipients(Deliveries(rs, result)) == rs;
    }
  }

  /* ---------------------------------------------------------------- traces */

  datatype Op<K> = Subscribe(key: K, responder: ResponderId) | Notify(key: K, result: Answer)

  function Step<K>(s: CacheState<K>, op: Op<K>): Result<CacheState<K>> {
    match op
    case Subscribe(key, responder) => Subscribed(s, key, responder)
    case Notify(key, result) => Notified(s, key, result)
  }

  /** The operations applied in order from a new table. */
  function Run<K>(ops: seq<Op<K>>): Result<CacheState<K>> {
    if ops == [] then Ok(Empty())
    else
      var s :- Run(ops[..|ops| - 1]);
      Step(s, ops[|ops| - 1])
  }

  /** Reference definitions over the operations alone. A key is in flight when its last
      operation was a subscribe. */
  predicate InFlight<K(==)>(ops: seq<Op<K>>, k: K) {
    if ops == [] then false
    else if ops[|ops| - 1].key == k then ops[|ops| - 1].Subscribe?
    else InFlight(ops[..|ops| - 1], k)
  }

  /** The subscribes on `k` that came while `k` was not in flight. */
  function FreshSubscribes<K(==)>(ops: seq<Op<K>>, k: K): nat {
    if ops == [] then 0
    else
      var prefix := ops[..|ops| - 1];
      var op := ops[|ops| - 1];
      FreshSubscribes(prefix, k) + (if op.Subscribe? && op.key == k && !InFlight(prefix, k) then 1 else 0)
  }

  /** Every responder ever subscribed, in order. */
  function Subscribers<K>(ops: seq<Op<K>>): seq<ResponderId> {
    if ops == [] then []
    else
      var op := ops[|ops| - 1];
      Subscribers(ops[..|ops| - 1]) + (if op.Subscribe? then [op.responder] else [])
  }

  /** What a table reached by `ops` keeps: only pending, non-empty entries; the keys in the
      table are those in flight; each key was launched once per subscribe that found it not in
      flight (coalescing, and no memoisation: a subscribe after a notify launches again); and
      every subscribed responder is either still waiting or has been sent a result. */
  ghost predicate Accounted<K(!new)>(ops: seq<Op<K>>, s: CacheState<K>) {
    && Inv(s)
    && (forall k :: k in s.entries <==> InFlight(ops, k))
    && (forall k :: multiset(s.launched)[k] == FreshSubscribes(ops, k))
    && multiset(Subscribers(ops)) == Waiting(s.entries) + multiset(Recipients(s.sent))
  }

  lemma SubscribeAccounted<K(!new)>(ops: seq<Op<K>>, s: CacheState<K>, key: K, responder: ResponderId)
    requires Accounted(ops, s)
    ensures Subscribed(s, key, responder).Ok?
    ensures Accounted(ops + [Subscribe(key, responder)], Subscribed(s, key, responder).value)
  {
    var ops' := ops + [Subscribe(key, responder)];
    assert ops'[..|ops'| - 1] == ops;
    SubscribePreserves(s, key, responder);
    SubscribeWaiting(s, key, responder);
  }

  lemma NotifyAccounted<K(!new)>(ops: seq<Op<K>>, s: CacheState<K>, key: K, result: Answer)
    requires Accounted(ops, s)
    ensures Notified(s, key, result).Ok?
    ensures Accounted(ops + [Notify(key, result)], Notified(s, key, result).value)
  {
    var ops' := ops + [Notify(key, result)];
    assert ops'[..|ops'| - 1] == ops;
    NotifyPreserves(s, key, result);
    NotifyWaiting(s, key, result);
    var t := Notified(s, key, result).value;
    assert Subscribers(ops') == Subscribers(ops);
    forall k
      ensures k in t.entries <==> InFlight(ops', k)
    {
    }
    forall k
      ensures multiset(t.launched)[k] == FreshSubscribes(ops', k)
    {
    }
  }

  /** Every run of the table keeps its accounts, and none reaches a `todo!`. */
  lemma {:induction false} RunFacts<K(!new)>(ops: seq<Op<K>>)
    ensures Run(ops).Ok? && Accounted(ops, Run(ops).value)
  {
    if ops != [] {
      var prefix := ops[..|ops| - 1];
      assert ops == prefix + [ops[|ops| - 1]];
      RunFacts(prefix);
      var s := Run(prefix).value;
      match ops[|ops| - 1]
      case Subscribe(key, responder) => SubscribeAccounted(prefix, s, key, responder);
      case Notify(key, result) => NotifyAccounted(prefix, s, key, result);
    }
  }

  /** With distinct responder ids, no responder is ever sent more than one result, and once no
      key is in flight every responder has been sent exactly one. */
  lemma ExactlyOnce<K(!new)>(ops: seq<Op<K>>, id: ResponderId)
    requires multiset(Subscribers(ops))[id] <= 1
    ensures Run(ops).Ok?
    ensures multiset(Recipients(Run(ops).value.sent))[id] <= multiset(Subscribers(ops))[id]
    ensures Run(ops).value.entries == map[] ==>
      multiset(Recipients(Run(ops).value.sent))[id] == multiset(Subscribers(ops))[id]
  {
    RunFacts(ops);
  }

  /** The `test_dns_cache` test: two subscribers on "a", then a notify with 1.2.3.4; both receive it, in
      order, and the lookup was launched once. */
  lemma TwoSubscribers()
    ensures var r := Run([Subscribe("a", 1), Subscribe("a", 2), Notify("a", Some(V4(1, 2, 3, 4)))]);
      && r.Ok?
      && r.value.sent == [Delivery(1, Some(V4(1, 2, 3, 4))), Delivery(2, Some(V4(1, 2, 3, 4)))]
      && r.value.launched == ["a"]
      && r.value.entries == map[]
  {
    var ops := [Subscribe("a", 1), Subscribe("a", 2), Notify("a", Some(V4(1, 2, 3, 4)))];
    assert ops[..2][..1] == [Subscribe("a", 1)] && ops[..2] == [Subscribe("a", 1), Subscribe("a", 2)];
    assert [Subscribe("a", 1)][..0] == [];
  }

  /** No memoisation: a subscribe after the key was notified launches the lookup again. */
  lemma LaunchAgainAfterNotify(k: string)
    ensures var r := Run([Subscribe(k, 1), Notify(k, None), Subscribe(k, 2)]);
      r.Ok? && r.value.launched == [k, k] && r.value.sent == [Delivery(1, None)]
  {
    var ops := [Subscribe(k, 1), Notify(k, None), Subscribe(k, 2)];
    assert ops[..2][..1] == [Subscribe(k, 1)] && ops[..2] == [Subscribe(k, 1), Notify(k, None)];
    assert [Subscribe(k, 1)][..0] == [];
    var s1 := Subscribed(Empty<string>(), k, 1).value;
    assert Run([Subscribe(k, 1)]) == Ok(s1);
    assert s1.entries.Keys == {k} && s1.entries[k].responders == [1];
    var s2 := Notified(s1, k, None).value;
    assert Run(ops[..2]) == Ok(s2);
    assert s2.entries.Keys == {};
    assert s2.sent == Deliveries([1], None) == [Delivery(1, None)];
  }

  /* ---------------------------------------------------------------- the class */

  /** `ResultCache<K>`: the table is updated in place; the sends and launches it makes are
      recorded in ghost fields beside it, for the proofs only. */
  class ResultCache<K(==)> {
    var entries: map<K, CacheItem>
    ghost var sent: seq<Delivery>
    ghost var launched: seq<K>

    ghost function State(): CacheState<K>
      reads this
    {
      CacheState(entries, sent, launched)
    }

    ghost predicate Valid()
      reads this
    {
      Inv(State())
    }

    /** `ResultCache::new`. */
    constructor ()
      ensures Valid() && State() == Empty()
    {
      entries := map[];
      sent := [];
      launched := [];
    }

    /** `subscribe`; the call of `f` is the new launch. */
    method Subscribe(key: K, responder: ResponderId)
      requires Valid()
      modifies this
      ensures Valid() && Ok(State()) == Subscribed(old(State()), key, responder)
    {
      if key !in entries {
        var newItem := NewPending(responder);
        entries := entries[key := newItem];
        launched := launched + [key];
      } else {
        match entries[key]
        case Pending(responders) =>
          entries := entries[key := Pending(responders + [responder])];
        case Resolved(_) =>
          assert false;
      }
    }

    /** `notify`: the entry is removed, then the result is sent to each responder in turn. */
    method Notify(key: K, result: Answer)
      requires Valid()
      modifies this
      ensures Valid() && Ok(State()) == Notified(old(State()), key, result)
    {
      if key in entries {
        var item := entries[key];
        entries := entries - {key};
        match item
        case Pending(responders) =>
          for i := 0 to |responders|
            invariant sent == old(sent) + Deliveries(responders[..i], result)
            invariant entries == old(entries) - {key} && launched == old(launched)
          {
            assert responders[..i + 1] == responders[..i] + [responders[i]];
            DeliveriesAppend(responders[..i], [responders[i]], result);
            sent := sent + [Delivery(responders[i], result)];
          }
          assert responders[..|responders|] == responders;
        case Resolved(_) =>
          assert false;
      }
    }
  }

  lemma DeliveriesAppend(a: seq<ResponderId>, b: seq<ResponderId>, result: Answer)
    ensures Deliveries(a + b, result) == Deliveries(a, result) + Deliveries(b, result)
  {
  }
}
