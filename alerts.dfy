/** The low-stock alert table as a map from alert id to alert: the lifecycle steps the movement
    handlers take, the single-unresolved-alert invariant, manual resolution, the status filter and
    the counts. */
module AlertRules {
  import opened Common
  import opened Entities

  /** The ids of the unresolved alerts of one product (`where: { productId, isResolved: false }`). */
  function ActiveIdsFor(alerts: map<Id, Alert>, productId: Id): set<Id>
  {
    set id | id in alerts && alerts[id].productId == productId && !alerts[id].isResolved
  }

  predicate HasActive(alerts: map<Id, Alert>, productId: Id)
  {
    exists id :: id in alerts && alerts[id].productId == productId && !alerts[id].isResolved
  }

  /** The invariant of the lifecycle: no product has two unresolved alerts. */
  ghost predicate AtMostOneActive(alerts: map<Id, Alert>)
  {
    forall a, b ::
      a in alerts && b in alerts &&
      !alerts[a].isResolved && !alerts[b].isResolved &&
      alerts[a].productId == alerts[b].productId
      ==> a == b
  }

  /** Under the invariant a product has zero or one unresolved alert, and one exactly when the
      lookup for an unresolved alert finds something. */
  lemma AtMostOneActiveCount(alerts: map<Id, Alert>, productId: Id)
    requires AtMostOneActive(alerts)
    ensures |ActiveIdsFor(alerts, productId)| <= 1
    ensures |ActiveIdsFor(alerts, productId)| == 1 <==> HasActive(alerts, productId)
  {
    var ids := ActiveIdsFor(alerts, productId);
    assert forall a :: a in alerts && alerts[a].productId == productId && !alerts[a].isResolved ==> a in ids;
    if ids != {} {
      var a :| a in ids;
      assert ids == {a};
    }
  }

  /** A fresh alert as `alertRepository.create({ productId, userId })` builds it. */
  function NewAlert(id: Id, productId: Id, userId: UserId, now: Time): (a: Alert)
    ensures a.id == id && a.productId == productId && a.userId == userId
    ensures !a.isResolved && a.resolvedAt.None?
  {
    Alert(id, productId, userId, false, now, None)
  }

  /** Creating an alert only when the product has none keeps the invariant, and afterwards the
      product has exactly one unresolved alert. */
  lemma {:induction false} RaiseKeepsInvariant(alerts: map<Id, Alert>, id: Id, productId: Id, userId: UserId, now: Time)
    requires AtMostOneActive(alerts)
    requires id !in alerts
    requires !HasActive(alerts, productId)
    ensures AtMostOneActive(alerts[id := NewAlert(id, productId, userId, now)])
    ensures ActiveIdsFor(alerts[id := NewAlert(id, productId, userId, now)], productId) == {id}
  {
    var after := alerts[id := NewAlert(id, productId, userId, now)];
    forall a, b |
      a in after && b in after && !after[a].isResolved && !after[b].isResolved &&
      after[a].productId == after[b].productId
      ensures a == b
    {
      if a != id && b != id {
        assert after[a] == alerts[a] && after[b] == alerts[b];
      }
    }
  }

  /** One alert marked resolved at `now` (`isResolved = true; resolvedAt = new Date()`). */
  function Resolved(a: Alert, now: Time): (r: Alert)
    ensures r.isResolved && r.resolvedAt == Some(now)
    ensures r.id == a.id && r.productId == a.productId && r.userId == a.userId && r.createdAt == a.createdAt
  {
    a.(isResolved := true, resolvedAt := Some(now))
  }

  /** Every unresolved alert of the product resolved at `now`; every other alert as it was. */
  function ResolveAllFor(alerts: map<Id, Alert>, productId: Id, now: Time): (r: map<Id, Alert>)
    ensures r.Keys == alerts.Keys
    ensures !HasActive(r, productId)
    ensures forall id :: id in alerts && alerts[id].productId != productId ==> r[id] == alerts[id]
    ensures forall id :: id in alerts && alerts[id].isResolved ==> r[id] == alerts[id]
    ensures forall id :: id in ActiveIdsFor(alerts, productId) ==> r[id] == Resolved(alerts[id], now)
  {
    map id | id in alerts ::
      if alerts[id].productId == productId && !alerts[id].isResolved then Resolved(alerts[id], now)
      else alerts[id]
  }

  /** The loop over `activeAlerts`: each unresolved alert of the product is marked resolved, one at
      a time, on a copy of the table. */
  method ResolveActive(alerts: map<Id, Alert>, productId: Id, now: Time) returns (updated: map<Id, Alert>)
    ensures updated == ResolveAllFor(alerts, productId, now)
  {
    var pending := ActiveIdsFor(alerts, productId);
    ghost var active := pending;
    updated := alerts;
    while pending != {}
      invariant pending <= active
      invariant updated.Keys == alerts.Keys
      invariant forall id :: id in updated ==>
        updated[id] == if id in active && id !in pending then Resolved(alerts[id], now) else alerts[id]
      decreases pending
    {
      var id :| id in pending;
      updated := updated[id := Resolved(updated[id], now)];
      pending := pending - {id};
    }
  }

  /** Resolving every alert of one product keeps the invariant. */
  lemma ResolveAllKeepsInvariant(alerts: map<Id, Alert>, productId: Id, now: Time)
    requires AtMostOneActive(alerts)
    ensures AtMostOneActive(ResolveAllFor(alerts, productId, now))
  {
    var r := ResolveAllFor(alerts, productId, now);
    forall a, b |
      a in r && b in r && !r[a].isResolved && !r[b].isResolved && r[a].productId == r[b].productId
      ensures a == b
    {
      assert r[a] == alerts[a] && r[b] == alerts[b];
    }
  }

  /** Manual resolution of one alert, as a step on the table: an alert that is missing or owned by
      someone else is not found, a resolved one is refused, and nothing changes on either error. */
  function ResolveOne(alerts: map<Id, Alert>, caller: UserId, id: Id, now: Time): (r: Result<map<Id, Alert>>)
    ensures r.Err? <==> id !in alerts || alerts[id].userId != caller || alerts[id].isResolved
    ensures (id !in alerts || alerts[id].userId != caller) ==> r == Err(NotFound)
    ensures id in alerts && alerts[id].userId == caller && alerts[id].isResolved ==> r == Err(AlreadyResolved)
    ensures r.Ok? ==> r.value == alerts[id := Resolved(alerts[id], now)]
  {
    if id !in alerts || alerts[id].userId != caller then Err(NotFound)
    else if alerts[id].isResolved then Err(AlreadyResolved)
    else Ok(alerts[id := Resolved(alerts[id], now)])
  }

  /** A second manual resolution after a successful one always fails. */
  lemma ResolveTwiceFails(alerts: map<Id, Alert>, caller: UserId, id: Id, now: Time, later: Time)
    requires ResolveOne(alerts, caller, id, now).Ok?
    ensures ResolveOne(ResolveOne(alerts, caller, id, now).value, caller, id, later) == Err(AlreadyResolved)
  {
  }

  /** Manual resolution keeps the invariant: it only ever removes an unresolved alert. */
  lemma ResolveOneKeepsInvariant(alerts: map<Id, Alert>, caller: UserId, id: Id, now: Time)
    requires AtMostOneActive(alerts)
    requires ResolveOne(alerts, caller, id, now).Ok?
    ensures AtMostOneActive(ResolveOne(alerts, caller, id, now).value)
  {
    var r := ResolveOne(alerts, caller, id, now).value;
    forall a, b |
      a in r && b in r && !r[a].isResolved && !r[b].isResolved && r[a].productId == r[b].productId
      ensures a == b
    {
      assert a != id && b != id;
      assert r[a] == alerts[a] && r[b] == alerts[b];
    }
  }

  /** Removing alerts never breaks the invariant. */
  lemma RemoveKeepsInvariant(alerts: map<Id, Alert>, ids: set<Id>)
    requires AtMostOneActive(alerts)
    ensures AtMostOneActive(alerts - ids)
  {
  }

  /** `getAllAlerts`' `status` parameter: "active", "resolved", anything else means all. */
  predicate StatusMatches(a: Alert, status: Option<string>)
  {
    && (status == Some("active") ==> !a.isResolved)
    && (status == Some("resolved") ==> a.isResolved)
  }

  /** The caller's alerts that pass the status filter. */
  function FilterAlerts(alerts: map<Id, Alert>, caller: UserId, status: Option<string>): (r: map<Id, Alert>)
    ensures forall id :: id in r ==> id in alerts && r[id] == alerts[id] && alerts[id].userId == caller
    ensures status == Some("active") ==>
      forall id :: id in r <==> id in alerts && alerts[id].userId == caller && !alerts[id].isResolved
    ensures status == Some("resolved") ==>
      forall id :: id in r <==> id in alerts && alerts[id].userId == caller && alerts[id].isResolved
    ensures status != Some("active") && status != Some("resolved") ==>
      forall id :: id in r <==> id in alerts && alerts[id].userId == caller
  {
    map id | id in alerts && alerts[id].userId == caller && StatusMatches(alerts[id], status) :: alerts[id]
  }

  /** The "active" and "resolved" lists split the caller's full list with no overlap. */
  lemma {:induction false} FilterAlertsPartition(alerts: map<Id, Alert>, caller: UserId)
    ensures var all := FilterAlerts(alerts, caller, None);
      var active := FilterAlerts(alerts, caller, Some("active"));
      var resolved := FilterAlerts(alerts, caller, Some("resolved"));
      && active.Keys !! resolved.Keys
      && active.Keys + resolved.Keys == all.Keys
      && |active| + |resolved| == |all|
  {
    var all := FilterAlerts(alerts, caller, None);
    var active := FilterAlerts(alerts, caller, Some("active"));
    var resolved := FilterAlerts(alerts, caller, Some("resolved"));
    assert active.Keys + resolved.Keys == all.Keys;
    assert |active.Keys + resolved.Keys| == |active.Keys| + |resolved.Keys|;
  }

  /** The three counts of `getAlertStats`. */
  datatype AlertStats = AlertStats(total: nat, active: nat, resolved: nat)

  /** The counts, each over the caller's alerts only. */
  function AlertStatsFor(alerts: map<Id, Alert>, caller: UserId): (r: AlertStats)
    ensures r.active + r.resolved == r.total
    ensures r.total == |FilterAlerts(alerts, caller, None)|
    ensures r.active == |FilterAlerts(alerts, caller, Some("active"))|
    ensures r.resolved == |FilterAlerts(alerts, caller, Some("resolved"))|
  {
    FilterAlertsPartition(alerts, caller);
    AlertStats(
      |FilterAlerts(alerts, caller, None)|,
      |FilterAlerts(alerts, caller, Some("active"))|,
      |FilterAlerts(alerts, caller, Some("resolved"))|)
  }

  /** The `resolved` field of the stats response as written: it carries the handler `resolveAlert`
      itself, which JSON serialisation drops, instead of the resolved count. */
  datatype ResolvedField = Count(n: nat) | HandlerReference

  datatype StatsResponse = StatsResponse(total: nat, active: nat, resolved: ResolvedField)

  /** The stats response as the handler builds it. */
  function StatsResponseAsWritten(alerts: map<Id, Alert>, caller: UserId): StatsResponse
  {
    var s := AlertStatsFor(alerts, caller);
    StatsResponse(s.total, s.active, HandlerReference)
  }

  /** Whatever the table holds, the response never reports a resolved count. */
  lemma StatsAsWrittenOmitsResolved(alerts: map<Id, Alert>, caller: UserId)
    ensures !StatsResponseAsWritten(alerts, caller).resolved.Count?
  {
  }

  /** The response with the resolved count the handler computes: each field is the size of the
      matching list, and the three fields add up. */
  function StatsResponseFor(alerts: map<Id, Alert>, caller: UserId): (r: StatsResponse)
    ensures r.resolved.Count? && r.active + r.resolved.n == r.total
    ensures r.total == |FilterAlerts(alerts, caller, None)|
    ensures r.active == |FilterAlerts(alerts, caller, Some("active"))|
    ensures r.resolved == Count(|FilterAlerts(alerts, caller, Some("resolved"))|)
  {
    var s := AlertStatsFor(alerts, caller);
    StatsResponse(s.total, s.active, Count(s.resolved))
  }
}
