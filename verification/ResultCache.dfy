// The per-user result cache of src/framework/CF_framework_cache.h: a list that successive requests consume from the
// front, with the time of the last search and the time of the last update.

module ResultCache {
  datatype Entry = Entry(searchTime: int, updateTime: int, ids: seq<nat>)

  /** One request: how many ids it asks for, when, and how many the random cap allows. */
  datatype Request = Request(num: nat, now: int, cap: nat)

  /** A call of get: who asks, for how many, and when. */
  datatype Call = Call(uid: nat, num: nat, now: int)

  function Min(a: int, b: int): int { if a < b then a else b }

  datatype Limits = Limits(flushCount: int, flushTime: int)

  predicate Fresh(limits: Limits, e: Entry, now: int) {
    now - e.updateTime < limits.flushTime
  }

  function Taken(limits: Limits, e: Entry, r: Request): nat {
    if Fresh(limits, e, r.now) then Min(Min(r.cap, r.num), |e.ids|) else 0
  }

  function Returned(limits: Limits, e: Entry, r: Request): seq<nat> {
    e.ids[..Taken(limits, e, r)]
  }

  /** The request also asks for a refill and stamps the search time. */
  predicate Stamps(limits: Limits, e: Entry, r: Request) {
    && r.now - e.searchTime > 60
    && (Fresh(limits, e, r.now) ==> |e.ids| - Taken(limits, e, r) <= limits.flushCount)
  }

  function Next(limits: Limits, e: Entry, r: Request): Entry {
    var stamp := if Stamps(limits, e, r) then r.now else e.searchTime;
    if Fresh(limits, e, r.now) then Entry(stamp, e.updateTime, e.ids[Taken(limits, e, r)..])
    else Entry(stamp, 0, [])
  }

  /**
   * A request before the flush time: the ids are taken from the front of the entry, as many as were asked for or at
   * least three or all that are left. Few ids left call for a refill, at most once a minute.
   */
  predicate ServedInTime(limits: Limits, e: Entry, num: nat, now: int, code: int, ids: seq<nat>, e': Entry) {
    now - e.updateTime < limits.flushTime ==>
      && ids + e'.ids == e.ids && e'.updateTime == e.updateTime
      && (|ids| == num || |ids| >= 3 || e'.ids == [])
      && (|e'.ids| > limits.flushCount ==> code == 2 && e'.searchTime == e.searchTime)
      && (|e'.ids| <= limits.flushCount && now - e.searchTime > 60 ==> code == 1 && e'.searchTime == now)
      && (now - e.searchTime <= 60 ==> e'.searchTime == e.searchTime)
  }

  /** A request from the flush time on: nothing is returned and the entry is emptied. */
  predicate ServedLate(limits: Limits, e: Entry, now: int, code: int, ids: seq<nat>, e': Entry) {
    now - e.updateTime >= limits.flushTime ==>
      && ids == [] && e'.ids == [] && e'.updateTime == 0
      && (now - e.searchTime > 60 ==> code == 3 && e'.searchTime == now)
      && (now - e.searchTime <= 60 ==> code == 4 && e'.searchTime == e.searchTime)
  }

  class Cache {
    const limits: Limits
    var entries: map<nat, Entry>

    constructor (limits: Limits)
      ensures this.limits == limits && entries == map[]
    {
      this.limits, entries := limits, map[];
    }

    /**
     * cap is the random cap that was drawn. The code is left open when few ids remain and the last search is less
     * than a minute old.
     */
    method Get(uid: nat, num: nat, now: int) returns (code: int, ids: seq<nat>, ghost cap: nat)
      modifies this
      ensures 3 <= cap <= 6 && |ids| <= num && |ids| <= 6
      ensures uid !in old(entries) ==> code == -1 && ids == [] && entries == old(entries)
      ensures uid in old(entries) ==>
                && uid in entries && entries == old(entries)[uid := entries[uid]]
                && ServedInTime(limits, old(entries)[uid], num, now, code, ids, entries[uid])
                && ServedLate(limits, old(entries)[uid], now, code, ids, entries[uid])
      ensures uid in old(entries) ==>
                var e, r := old(entries)[uid], Request(num, now, cap);
                && ids == Returned(limits, e, r)
                && entries == old(entries)[uid := Next(limits, e, r)]
                && (Fresh(limits, e, now) && Stamps(limits, e, r) ==> code == 1)
                && (Fresh(limits, e, now) && |e.ids| - |ids| > limits.flushCount ==> code == 2)
                && (!Fresh(limits, e, now) ==> code == if Stamps(limits, e, r) then 3 else 4)
    {
      cap := 3;
      code, ids := -1, [];
      if uid !in entries { return; }
      var e := entries[uid];
      var stm := e.searchTime;
      var flush: int := *;
      if now - e.updateTime < limits.flushTime {
        var rand :| 3 <= rand <= 6;
        cap := rand;
        var take: nat := if rand < num then rand else num;
        if |e.ids| < take { take := |e.ids|; }
        ids := e.ids[..take];
        var remain := |e.ids| - take;
        if remain <= limits.flushCount {
          if now - e.searchTime > 60 {
            flush := 1;
            stm := now;
          }
        } else {
          flush := 2;
        }
        entries := entries[uid := Entry(stm, e.updateTime, e.ids[take..])];
      } else {
        if now - e.searchTime > 60 {
          flush := 3;
          stm := now;
        } else {
          flush := 4;
        }
        entries := entries[uid := Entry(stm, 0, [])];
      }
      code := flush;
    }

    /** The record is assembled in a buffer of 1024 bytes: twelve for the header, eight for each id. */
    method Put(uid: nat, ids: seq<nat>, now: int)
      requires 12 + 8 * |ids| <= 1024
      modifies this
      ensures entries == old(entries)[uid := Entry(0, now, ids)]
    {
      entries := entries[uid := Entry(0, now, ids)];
    }

    /**
     * A put for one user and then any calls of get, by this user and by others. What this user is given is consumed
     * from the front of the list that was put, each id at most once and never more than was asked for; nothing of it
     * is lost unless a call came too late, and a third as many calls that ask for three or more use it up.
     */
    method PutAndServe(uid: nat, ids: seq<nat>, putTime: int, calls: seq<Call>)
      returns (served: seq<nat>, ghost rs: seq<Request>)
      requires 12 + 8 * |ids| <= 1024
      modifies this
      ensures Answers(rs, CallsOf(uid, calls)) && uid in entries
      ensures served == Delivered(limits, Entry(0, putTime, ids), rs) <= ids
      ensures entries[uid] == After(limits, Entry(0, putTime, ids), rs)
      ensures var late := exists i :: 0 <= i < |calls| && calls[i].uid == uid
                                      && calls[i].now - putTime >= limits.flushTime;
              && |served| <= Asked(CallsOf(uid, calls))
              && (if late then entries[uid].ids == [] else served + entries[uid].ids == ids)
              && (!late && 3 * Large(CallsOf(uid, calls)) >= |ids| ==> served == ids)
      ensures forall v :: v != uid && (forall i :: 0 <= i < |calls| ==> calls[i].uid != v) ==>
                (v in entries <==> v in old(entries)) && (v in entries ==> entries[v] == old(entries)[v])
    {
      hide After, Delivered, Answers, CallsOf, Expired, Asked, Large, ServedInTime, ServedLate;
      Put(uid, ids, putTime);
      ghost var e := Entry(0, putTime, ids);
      served, rs := [], [];
      ServedNone(limits, e, uid);
      assert calls[..0] == [];
      for i := 0 to |calls|
        invariant Answers(rs, CallsOf(uid, calls[..i])) && uid in entries
        invariant served == Delivered(limits, e, rs) && entries[uid] == After(limits, e, rs)
        invariant forall v :: v != uid && (forall j :: 0 <= j < i ==> calls[j].uid != v) ==>
                    (v in entries <==> v in old(entries)) && (v in entries ==> entries[v] == old(entries)[v])
      {
        var call := calls[i];
        assert calls[..i + 1] == calls[..i] + [call];
        var code, more;
        ghost var cap;
        code, more, cap := Get(call.uid, call.num, call.now);
        ServedNext(limits, e, uid, rs, calls[..i], call, cap);
        if call.uid == uid {
          served := served + more;
          rs := rs + [Request(call.num, call.now, cap)];
        }
      }
      assert calls[..|calls|] == calls;
      ConsumedAsQueue(limits, e, rs);
      ExpiredIsLate(limits, e, rs, uid, calls);
      DeliveredAmount(limits, e, rs, CallsOf(uid, calls));
    }
  }

  // ----- The calls of one user -----

  function CallsOf(uid: nat, calls: seq<Call>): seq<Call> {
    if calls == [] then []
    else CallsOf(uid, calls[..|calls| - 1]) + (if calls[|calls| - 1].uid == uid then [calls[|calls| - 1]] else [])
  }

  /** The requests are the calls, each with the cap that was drawn for it. */
  ghost predicate Answers(rs: seq<Request>, calls: seq<Call>) {
    && |rs| == |calls|
    && forall i :: 0 <= i < |rs| ==> rs[i].num == calls[i].num && rs[i].now == calls[i].now && 3 <= rs[i].cap <= 6
  }

  /** How many ids the calls ask for in all. */
  function Asked(calls: seq<Call>): nat {
    if calls == [] then 0 else Asked(calls[..|calls| - 1]) + calls[|calls| - 1].num
  }

  /** How many of the calls ask for three ids or more. */
  function Large(calls: seq<Call>): nat {
    if calls == [] then 0 else Large(calls[..|calls| - 1]) + (if calls[|calls| - 1].num >= 3 then 1 else 0)
  }

  lemma {:induction false} DeliveredAmount(limits: Limits, e: Entry, rs: seq<Request>, calls: seq<Call>)
    requires Answers(rs, calls)
    ensures |Delivered(limits, e, rs)| <= Asked(calls)
    ensures !Expired(limits, e, rs) ==>
              |Delivered(limits, e, rs)| >= 3 * Large(calls) || Delivered(limits, e, rs) == e.ids
  {
    hide Next;
    if rs != [] {
      var before, r := rs[..|rs| - 1], rs[|rs| - 1];
      DeliveredAmount(limits, e, before, calls[..|calls| - 1]);
      ConsumedAsQueue(limits, e, before);
      ExpiredNext(limits, e, rs);
      var done, now := Delivered(limits, e, before), After(limits, e, before);
      if !Expired(limits, e, rs) && Taken(limits, now, r) == |now.ids| {
        assert done + Returned(limits, now, r) == e.ids;
      }
    }
  }

  lemma ServedNone(limits: Limits, e: Entry, uid: nat)
    ensures Answers([], CallsOf(uid, [])) && Delivered(limits, e, []) == [] && After(limits, e, []) == e
  {
  }

  lemma ServedNext(limits: Limits, e: Entry, uid: nat, rs: seq<Request>, calls: seq<Call>, call: Call, cap: nat)
    requires Answers(rs, CallsOf(uid, calls)) && 3 <= cap <= 6
    ensures var r := Request(call.num, call.now, cap);
            && After(limits, e, rs + [r]) == Next(limits, After(limits, e, rs), r)
            && Delivered(limits, e, rs + [r]) == Delivered(limits, e, rs) + Returned(limits, After(limits, e, rs), r)
            && Answers(if call.uid == uid then rs + [r] else rs, CallsOf(uid, calls + [call]))
  {
    var r := Request(call.num, call.now, cap);
    assert (rs + [r])[..|rs|] == rs;
    assert (calls + [call])[..|calls|] == calls;
  }

  lemma {:induction false} CallsOfHas(uid: nat, calls: seq<Call>, c: Call)
    ensures c in CallsOf(uid, calls) <==> c in calls && c.uid == uid
  {
    if calls != [] {
      CallsOfHas(uid, calls[..|calls| - 1], c);
      assert calls == calls[..|calls| - 1] + [calls[|calls| - 1]];
    }
  }

  lemma ExpiredIsLate(limits: Limits, e: Entry, rs: seq<Request>, uid: nat, calls: seq<Call>)
    requires Answers(rs, CallsOf(uid, calls))
    ensures Expired(limits, e, rs)
       <==> exists i :: 0 <= i < |calls| && calls[i].uid == uid && calls[i].now - e.updateTime >= limits.flushTime
  {
    forall c ensures c in CallsOf(uid, calls) <==> c in calls && c.uid == uid { CallsOfHas(uid, calls, c); }
    if Expired(limits, e, rs) {
      var i :| 0 <= i < |rs| && !Fresh(limits, e, rs[i].now);
      assert CallsOf(uid, calls)[i] in calls;
    }
    if i :| 0 <= i < |calls| && calls[i].uid == uid && calls[i].now - e.updateTime >= limits.flushTime {
      assert calls[i] in CallsOf(uid, calls);
      var j :| 0 <= j < |rs| && CallsOf(uid, calls)[j] == calls[i];
      assert !Fresh(limits, e, rs[j].now);
    }
  }

  // ----- Runs of requests between two puts -----

  function After(limits: Limits, e: Entry, rs: seq<Request>): Entry {
    if rs == [] then e else Next(limits, After(limits, e, rs[..|rs| - 1]), rs[|rs| - 1])
  }

  /** Everything returned so far, in order. */
  function Delivered(limits: Limits, e: Entry, rs: seq<Request>): seq<nat> {
    if rs == [] then []
    else
      var before := rs[..|rs| - 1];
      Delivered(limits, e, before) + Returned(limits, After(limits, e, before), rs[|rs| - 1])
  }

  /** Some request came too late. */
  predicate Expired(limits: Limits, e: Entry, rs: seq<Request>) {
    exists i :: 0 <= i < |rs| && !Fresh(limits, e, rs[i].now)
  }

  /**
   * The list is consumed as a queue: as long as no request came too late, what was returned followed by what remains
   * is the list as it was put; from the first late request on nothing is left and nothing more is returned.
   */
  lemma {:induction false} ConsumedAsQueue(limits: Limits, e: Entry, rs: seq<Request>)
    ensures var now := After(limits, e, rs);
            && Delivered(limits, e, rs) <= e.ids
            && (!Expired(limits, e, rs) ==>
                  Delivered(limits, e, rs) + now.ids == e.ids && now.updateTime == e.updateTime)
            && (Expired(limits, e, rs) ==> now.ids == [])
  {
    if rs != [] {
      var before, r := rs[..|rs| - 1], rs[|rs| - 1];
      ConsumedAsQueue(limits, e, before);
      ExpiredNext(limits, e, rs);
      ConsumedNext(limits, e.ids, Delivered(limits, e, before), After(limits, e, before), r);
    }
  }

  lemma ExpiredNext(limits: Limits, e: Entry, rs: seq<Request>)
    requires rs != []
    ensures Expired(limits, e, rs) <==> Expired(limits, e, rs[..|rs| - 1]) || !Fresh(limits, e, rs[|rs| - 1].now)
  {
  }

  /** One more request on a list of which some ids have been returned. */
  lemma ConsumedNext(limits: Limits, list: seq<nat>, returned: seq<nat>, e: Entry, r: Request)
    requires returned + e.ids == list || (returned <= list && e.ids == [])
    ensures var more := returned + Returned(limits, e, r);
            && more <= list
            && (returned + e.ids == list && Fresh(limits, e, r.now) ==> more + Next(limits, e, r).ids == list)
            && (e.ids == [] ==> more == returned)
            && (e.ids == [] || !Fresh(limits, e, r.now) ==> Next(limits, e, r).ids == [])
  {
  }

  /** After a late request every further request returns nothing. */
  lemma NothingAfterExpiry(limits: Limits, e: Entry, rs: seq<Request>, r: Request)
    requires Expired(limits, e, rs)
    ensures Returned(limits, After(limits, e, rs), r) == []
  {
    ConsumedAsQueue(limits, e, rs);
  }

  /** The times at which the search time was stamped, in order. */
  function StampTimes(limits: Limits, e: Entry, rs: seq<Request>): seq<int> {
    if rs == [] then []
    else
      var before, r := rs[..|rs| - 1], rs[|rs| - 1];
      StampTimes(limits, e, before) + (if Stamps(limits, After(limits, e, before), r) then [r.now] else [])
  }

  /** Stamps are more than a minute apart, and the entry carries the last of them. */
  lemma {:induction false} StampsAreSpaced(limits: Limits, e: Entry, rs: seq<Request>)
    ensures var times := [e.searchTime] + StampTimes(limits, e, rs);
            && After(limits, e, rs).searchTime == times[|times| - 1]
            && forall i :: 0 <= i < |times| - 1 ==> times[i + 1] - times[i] > 60
  {
    if rs != [] {
      var before, r := rs[..|rs| - 1], rs[|rs| - 1];
      StampsAreSpaced(limits, e, before);
      var times := [e.searchTime] + StampTimes(limits, e, before);
      if Stamps(limits, After(limits, e, before), r) {
        assert [e.searchTime] + (StampTimes(limits, e, before) + [r.now]) == times + [r.now];
      } else {
        assert [e.searchTime] + (StampTimes(limits, e, before) + []) == times;
      }
    }
  }
}
