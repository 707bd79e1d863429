/**
 * The DNS reconciler (`updateHost`) and one cycle of the update loop.
 *
 * The Cloudflare zone is an abstract store of records; the Prometheus counter
 * `cfdnsupdater_update_count` is an integer. Which registrar call fails, if any,
 * is an input (`failure`): a run of `updateHost` stops at the first failing
 * call, so naming that one call describes every possible run.
 */
module Reconciler {
  import opened Wrappers
  import opened Settings
  import opened Resolver

  /** A DNS record as the registrar holds it. */
  datatype Record = Record(id: string, name: string, rtype: string, content: string)

  /** The registrar calls `updateHost` makes, in order. */
  datatype ApiCall = NewClient | ZoneLookup | ListRecords | CreateRecord | UpdateRecord

  datatype ApiError = CallFailed(call: ApiCall)

  /** The zone's records together with the update counter. */
  datatype Store = Store(records: seq<Record>, updateCount: nat)

  /** The state after a call and the error it returns (`None` is Go's nil). */
  datatype Outcome = Outcome(store: Store, err: Option<ApiError>)

  /** The calls made before the records are known: client creation, zone lookup, listing. */
  predicate EarlyFailure(failure: Option<ApiCall>) {
    failure == Some(NewClient) || failure == Some(ZoneLookup) || failure == Some(ListRecords)
  }

  // ---------------------------------------------------------------------
  // The record store
  // ---------------------------------------------------------------------

  /** The record answers the listing filter `{Name: host, Type: "A"}`. */
  predicate IsHostA(r: Record, host: string) {
    r.name == host && r.rtype == "A"
  }

  /** The registrar's answer to the listing: the host's "A" records, in zone order. */
  function Matching(rs: seq<Record>, host: string): (m: seq<Record>)
    ensures |m| <= |rs|
    ensures forall x | x in m :: x in rs && IsHostA(x, host)
    ensures forall x | x in rs && IsHostA(x, host) :: x in m
  {
    if rs == [] then []
    else (if IsHostA(rs[0], host) then [rs[0]] else []) + Matching(rs[1..], host)
  }

  /** No two records share an ID, as in a registrar's zone. */
  predicate UniqueIds(rs: seq<Record>) {
    forall i, j | 0 <= i < j < |rs| :: rs[i].id != rs[j].id
  }

  function Ids(rs: seq<Record>): set<string> {
    set r | r in rs :: r.id
  }

  /** The registrar's `UpdateDNSRecord({ID: id, Content: content})`: the record with that ID gets the new content. */
  function SetContent(rs: seq<Record>, id: string, content: string): (r: seq<Record>)
    ensures |r| == |rs|
    ensures forall i | 0 <= i < |rs| :: r[i] == if rs[i].id == id then rs[i].(content := content) else rs[i]
  {
    if rs == [] then []
    else [if rs[0].id == id then rs[0].(content := content) else rs[0]] + SetContent(rs[1..], id, content)
  }

  function MaxIdLength(rs: seq<Record>): (n: nat)
    ensures forall i | 0 <= i < |rs| :: |rs[i].id| <= n
  {
    if rs == [] then 0
    else
      var rest := MaxIdLength(rs[1..]);
      if |rs[0].id| > rest then |rs[0].id| else rest
  }

  /** The ID the registrar assigns to a created record: one no record of the zone has. */
  function FreshId(rs: seq<Record>): (id: string)
    ensures id !in Ids(rs)
  {
    var id := seq(MaxIdLength(rs) + 1, _ => 'x');
    assert forall i | 0 <= i < |rs| :: rs[i].id != id;
    id
  }

  lemma {:induction false} MatchingAppend(rs: seq<Record>, r: Record, host: string)
    ensures Matching(rs + [r], host) == Matching(rs, host) + (if IsHostA(r, host) then [r] else [])
  {
    if rs == [] {
      assert rs + [r] == [r];
    } else {
      var head := if IsHostA(rs[0], host) then [rs[0]] else [];
      var tail := if IsHostA(r, host) then [r] else [];
      assert (rs + [r])[0] == rs[0];
      assert (rs + [r])[1..] == rs[1..] + [r];
      assert Matching(rs + [r], host) == head + Matching(rs[1..] + [r], host);
      MatchingAppend(rs[1..], r, host);
      assert head + (Matching(rs[1..], host) + tail) == (head + Matching(rs[1..], host)) + tail;
    }
  }

  /** Changing content leaves the listing the same, except for the changed content. */
  lemma {:induction false} MatchingSetContent(rs: seq<Record>, id: string, content: string, host: string)
    ensures Matching(SetContent(rs, id, content), host) == SetContent(Matching(rs, host), id, content)
  {
    if rs != [] {
      var t := SetContent(rs, id, content);
      assert t[1..] == SetContent(rs[1..], id, content);
      MatchingSetContent(rs[1..], id, content, host);
      var head := if IsHostA(rs[0], host) then [rs[0]] else [];
      assert Matching(rs, host) == head + Matching(rs[1..], host);
      assert SetContent(head + Matching(rs[1..], host), id, content)
          == SetContent(head, id, content) + SetContent(Matching(rs[1..], host), id, content);
    }
  }

  /** With unique IDs, changing one record's content is an update at that record's index. */
  lemma SetContentAt(rs: seq<Record>, k: nat, content: string)
    requires UniqueIds(rs) && k < |rs|
    ensures SetContent(rs, rs[k].id, content) == rs[k := rs[k].(content := content)]
  {
  }

  // ---------------------------------------------------------------------
  // updateHost as a function of the state
  // ---------------------------------------------------------------------

  /**
   * One call of `updateHost(config, ip)`: stop at a failing client creation, zone
   * lookup or listing; then, by the number of the host's "A" records, create one,
   * do nothing, update the one in place, or refuse. Only a successful write counts.
   * The refusal returns the listing's error, which is nil at that point.
   */
  function Reconcile(s: Store, config: Config, ip: string, failure: Option<ApiCall>): (o: Outcome)
    ensures o.err.Some? ==> failure.Some? && o.store == s && o.err == Some(CallFailed(failure.value))
    ensures s.updateCount <= o.store.updateCount <= s.updateCount + 1
  {
    if EarlyFailure(failure) then Outcome(s, Some(CallFailed(failure.value)))
    else
      var found := Matching(s.records, config.host);
      if |found| == 0 then
        if failure == Some(CreateRecord) then Outcome(s, Some(CallFailed(CreateRecord)))
        else Outcome(Store(s.records + [Record(FreshId(s.records), config.host, "A", ip)], s.updateCount + 1), None)
      else if |found| == 1 then
        if found[0].content == ip then Outcome(s, None)
        else if failure == Some(UpdateRecord) then Outcome(s, Some(CallFailed(UpdateRecord)))
        else Outcome(Store(SetContent(s.records, found[0].id, ip), s.updateCount + 1), None)
      else Outcome(s, None)
  }

  /** A failing client creation, zone lookup or listing returns its error and changes nothing. */
  lemma ReconcileEarlyFailure(s: Store, config: Config, ip: string, failure: Option<ApiCall>)
    requires EarlyFailure(failure)
    ensures Reconcile(s, config, ip, failure) == Outcome(s, Some(CallFailed(failure.value)))
  {
  }

  /**
   * No "A" record for the host: a successful call appends exactly one record with
   * the host's name, type "A", the IP and a new ID, and counts one update; a
   * failed create returns its error and changes nothing.
   */
  lemma ReconcileCreates(s: Store, config: Config, ip: string, failure: Option<ApiCall>)
    requires !EarlyFailure(failure)
    requires Matching(s.records, config.host) == []
    ensures var o := Reconcile(s, config, ip, failure);
      failure == Some(CreateRecord) ==> o == Outcome(s, Some(CallFailed(CreateRecord)))
    ensures var o := Reconcile(s, config, ip, failure);
      failure != Some(CreateRecord) ==>
        && o.err == None
        && o.store.updateCount == s.updateCount + 1
        && |o.store.records| == |s.records| + 1
        && o.store.records[..|s.records|] == s.records
        && var r := o.store.records[|s.records|];
           r.name == config.host && r.rtype == "A" && r.content == ip && r.id !in Ids(s.records)
           && Matching(o.store.records, config.host) == [r]
  {
    if failure != Some(CreateRecord) {
      var r := Record(FreshId(s.records), config.host, "A", ip);
      MatchingAppend(s.records, r, config.host);
      assert (s.records + [r])[..|s.records|] == s.records;
    }
  }

  /** One "A" record that already holds the IP: no write, nothing changes, nil is returned. */
  lemma ReconcileAlreadyCorrect(s: Store, config: Config, ip: string, failure: Option<ApiCall>)
    requires !EarlyFailure(failure)
    requires |Matching(s.records, config.host)| == 1 && Matching(s.records, config.host)[0].content == ip
    ensures Reconcile(s, config, ip, failure) == Outcome(s, None)
  {
  }

  /**
   * One "A" record with another IP: a successful call changes that record's content
   * to the IP, keeping its ID, leaves every other record as it was and counts one
   * update; a failed update returns its error and changes nothing.
   */
  lemma ReconcileUpdates(s: Store, config: Config, ip: string, failure: Option<ApiCall>)
    requires UniqueIds(s.records)
    requires !EarlyFailure(failure)
    requires |Matching(s.records, config.host)| == 1 && Matching(s.records, config.host)[0].content != ip
    ensures var o := Reconcile(s, config, ip, failure);
      failure == Some(UpdateRecord) ==> o == Outcome(s, Some(CallFailed(UpdateRecord)))
    ensures var o := Reconcile(s, config, ip, failure);
      var m := Matching(s.records, config.host)[0];
      failure != Some(UpdateRecord) ==>
        && o.err == None
        && o.store.updateCount == s.updateCount + 1
        && (exists k | 0 <= k < |s.records| :: s.records[k] == m && o.store.records == s.records[k := m.(content := ip)])
        && Matching(o.store.records, config.host) == [m.(content := ip)]
  {
    var m := Matching(s.records, config.host)[0];
    if failure != Some(UpdateRecord) {
      assert m in s.records;
      var k :| 0 <= k < |s.records| && s.records[k] == m;
      SetContentAt(s.records, k, ip);
      MatchingSetContent(s.records, m.id, ip, config.host);
      assert Matching(s.records, config.host) == [m];
    }
  }

  /**
   * Two or more "A" records: the call writes nothing and counts nothing, yet
   * reports success, since the error it returns is the listing's, which is nil.
   */
  lemma ReconcileAmbiguousReportsSuccess(s: Store, config: Config, ip: string, failure: Option<ApiCall>)
    requires !EarlyFailure(failure)
    requires |Matching(s.records, config.host)| >= 2
    ensures Reconcile(s, config, ip, failure) == Outcome(s, None)
  {
  }

  /** The counter moves exactly when the zone's records change. */
  lemma ReconcileCountsWrites(s: Store, config: Config, ip: string, failure: Option<ApiCall>)
    ensures var o := Reconcile(s, config, ip, failure);
      o.store.updateCount == s.updateCount + 1 <==> o.store.records != s.records
  {
    var o := Reconcile(s, config, ip, failure);
    var found := Matching(s.records, config.host);
    if !EarlyFailure(failure) && |found| == 1 && found[0].content != ip && failure != Some(UpdateRecord) {
      var m := found[0];
      assert m in s.records;
      var k :| 0 <= k < |s.records| && s.records[k] == m;
      assert o.store.records[k].content == ip != s.records[k].content;
    } else if !EarlyFailure(failure) && |found| == 0 && failure != Some(CreateRecord) {
      assert |o.store.records| != |s.records|;
    }
  }

  /**
   * When the host had at most one "A" record it has at most one afterwards, and
   * after a successful call it has exactly one, holding the IP.
   */
  lemma ReconcileKeepsSingleRecord(s: Store, config: Config, ip: string, failure: Option<ApiCall>)
    requires |Matching(s.records, config.host)| <= 1
    ensures var o := Reconcile(s, config, ip, failure);
      |Matching(o.store.records, config.host)| <= 1
    ensures var o := Reconcile(s, config, ip, failure);
      o.err == None ==>
        |Matching(o.store.records, config.host)| == 1 && Matching(o.store.records, config.host)[0].content == ip
  {
    var found := Matching(s.records, config.host);
    var o := Reconcile(s, config, ip, failure);
    if !EarlyFailure(failure) && o.store != s {
      if |found| == 0 {
        MatchingAppend(s.records, Record(FreshId(s.records), config.host, "A", ip), config.host);
      } else {
        MatchingSetContent(s.records, found[0].id, ip, config.host);
        assert found == [found[0]];
      }
    }
  }

  /** Every call keeps record IDs unique. */
  lemma ReconcileKeepsIdsUnique(s: Store, config: Config, ip: string, failure: Option<ApiCall>)
    requires UniqueIds(s.records)
    ensures UniqueIds(Reconcile(s, config, ip, failure).store.records)
  {
    var rs := Reconcile(s, config, ip, failure).store.records;
    if |rs| == |s.records| + 1 {
      var id := FreshId(s.records);
      assert forall i | 0 <= i < |s.records| :: s.records[i].id != id by {
        forall i | 0 <= i < |s.records| ensures s.records[i].id != id {
          assert s.records[i] in s.records;
        }
      }
    }
  }

  // ---------------------------------------------------------------------
  // The stateful reconciler
  // ---------------------------------------------------------------------

  /** The zone as the registrar holds it and the process's update counter. */
  class Updater {
    var records: seq<Record>
    var updateCount: nat

    ghost predicate Valid()
      reads this
    {
      UniqueIds(records)
    }

    function Snapshot(): Store
      reads this
    {
      Store(records, updateCount)
    }

    /** A process that has made no update yet, against a zone holding `zone`. */
    constructor (zone: seq<Record>)
      requires UniqueIds(zone)
      ensures Valid() && records == zone && updateCount == 0
    {
      records := zone;
      updateCount := 0;
    }

    /** `updateHost(config, ip)` with `failure` naming the registrar call that fails, if any. */
    method UpdateHost(config: Config, ip: string, failure: Option<ApiCall>) returns (err: Option<ApiError>)
      requires Valid()
      modifies this
      ensures Valid()
      ensures Outcome(Snapshot(), err) == Reconcile(old(Snapshot()), config, ip, failure)
      ensures err.Some? ==> records == old(records) && updateCount == old(updateCount)
      ensures old(updateCount) <= updateCount <= old(updateCount) + 1
    {
      ReconcileKeepsIdsUnique(Snapshot(), config, ip, failure);
      if failure == Some(NewClient) {
        return Some(CallFailed(NewClient));
      }
      if failure == Some(ZoneLookup) {
        return Some(CallFailed(ZoneLookup));
      }
      var found := Matching(records, config.host);
      var listErr: Option<ApiError> := if failure == Some(ListRecords) then Some(CallFailed(ListRecords)) else None;
      if listErr.Some? {
        return listErr;
      }
      if |found| == 0 {
        if failure == Some(CreateRecord) {
          return Some(CallFailed(CreateRecord));
        }
        records := records + [Record(FreshId(records), config.host, "A", ip)];
        updateCount := updateCount + 1;
        return None;
      } else if |found| == 1 {
        if found[0].content == ip {
          return None;
        }
        if failure == Some(UpdateRecord) {
          return Some(CallFailed(UpdateRecord));
        }
        records := SetContent(records, found[0].id, ip);
        updateCount := updateCount + 1;
        return None;
      } else {
        // the listing's error, necessarily nil here
        return listErr;
      }
    }
  }

  // ---------------------------------------------------------------------
  // One cycle of the update loop
  // ---------------------------------------------------------------------

  /**
   * One pass of `updateHostLoop`: resolve the IP, then reconcile with whatever
   * the resolver returned, even after a resolver error.
   */
  method RunCycle(u: Updater, config: Config, fetch: Fetch, failure: Option<ApiCall>)
    returns (resolved: Resolved, err: Option<ApiError>)
    requires u.Valid()
    modifies u
    ensures u.Valid()
    ensures resolved == GetIP(fetch)
    ensures Outcome(u.Snapshot(), err) == Reconcile(old(u.Snapshot()), config, resolved.ip, failure)
  {
    resolved := GetIP(fetch);
    err := u.UpdateHost(config, resolved.ip, failure);
  }

  /**
   * A failed resolve still reaches the registrar: with no record for the host,
   * the cycle issues a create request whose content is ""; when the registrar
   * accepts it, the new "A" record holds "".
   */
  lemma FailedResolveRequestsEmptyCreate(s: Store, config: Config, fetch: Fetch, failure: Option<ApiCall>)
    requires GetIP(fetch).err.Some?
    requires !EarlyFailure(failure)
    requires Matching(s.records, config.host) == []
    ensures var o := Reconcile(s, config, GetIP(fetch).ip, failure);
      failure != Some(CreateRecord) ==>
        && o.err == None && |o.store.records| == |s.records| + 1
        && o.store.records[|s.records|].name == config.host
        && o.store.records[|s.records|].content == ""
  {
    ReconcileCreates(s, config, GetIP(fetch).ip, failure);
  }

  /**
   * With the host's one record holding an address, a failed resolve makes the
   * cycle request an update of that record to "": when the registrar accepts
   * it, the record keeps its place and ID and its content becomes "".
   */
  lemma FailedResolveRequestsEmptyUpdate(s: Store, config: Config, fetch: Fetch, failure: Option<ApiCall>)
    requires UniqueIds(s.records)
    requires GetIP(fetch).err.Some?
    requires !EarlyFailure(failure)
    requires |Matching(s.records, config.host)| == 1 && Matching(s.records, config.host)[0].content != ""
    ensures var o := Reconcile(s, config, GetIP(fetch).ip, failure);
      var m := Matching(s.records, config.host)[0];
      failure != Some(UpdateRecord) ==>
        && o.err == None
        && (exists k | 0 <= k < |s.records| :: s.records[k] == m && o.store.records == s.records[k := m.(content := "")])
  {
    ReconcileUpdates(s, config, GetIP(fetch).ip, failure);
  }
}
