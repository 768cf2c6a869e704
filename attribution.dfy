/**
 * The attribution filter: keep the calls of known managers, normalise their
 * phone numbers, classify their direction, and order them by start date.
 */
module Attribution {
  import opened Common
  import opened Records
  import opened Phone
  import opened Sorting

  /** PHP truthiness of a user id string: "" and "0" are falsy. */
  predicate Truthy(uid: string) {
    uid != "" && uid != "0"
  }

  /** The record carries a truthy user id that is a key of the manager map. */
  predicate Admitted(r: RawCall, managers: map<string, string>) {
    r.portalUserId.Some? && Truthy(r.portalUserId.value) && r.portalUserId.value in managers
  }

  /** The attributed form of an admitted record. */
  function Attribute(r: RawCall, managers: map<string, string>): (c: Call)
    requires Admitted(r, managers)
    ensures Truthy(c.userId) && c.userId in managers && c.userName == managers[c.userId]
    ensures IsMissed(c) <==> r.callType == IncomingCallType && r.failedCode == Some(MissedCode)
    ensures IsAnswered(c) <==> r.failedCode == Some(SuccessCode)
    ensures |c.phone| == 11 <==> |DigitsOnly(r.phoneNumber)| >= NationalLength
  {
    var uid := r.portalUserId.value;
    Call(r.id, uid, managers[uid], r.portalNumber, NormalizePhone(r.phoneNumber),
         r.duration, r.startDate,
         if r.callType == IncomingCallType then Incoming else Outgoing,
         r.failedCode)
  }

  /** The admitted records, attributed, in input order (before sorting). */
  function Attributed(raw: seq<RawCall>, managers: map<string, string>): seq<Call> {
    if raw == [] then []
    else
      var last := raw[|raw| - 1];
      Attributed(raw[..|raw| - 1], managers)
        + (if Admitted(last, managers) then [Attribute(last, managers)] else [])
  }

  /** An attributed call is exactly the attribution of some admitted input record. */
  lemma {:induction false} AttributedMembership(raw: seq<RawCall>, managers: map<string, string>, c: Call)
    ensures c in Attributed(raw, managers)
        <==> exists r :: r in raw && Admitted(r, managers) && c == Attribute(r, managers)
  {
    if raw != [] {
      var front := raw[..|raw| - 1];
      assert raw == front + [raw[|raw| - 1]];
      AttributedMembership(front, managers, c);
    }
  }

  /** What every kept record looks like: a known manager, its name, its direction, its phone. */
  lemma AttributeFields(r: RawCall, managers: map<string, string>)
    requires Admitted(r, managers)
    ensures var c := Attribute(r, managers);
      && Truthy(c.userId) && c.userId in managers && c.userName == managers[c.userId]
      && (c.direction == Incoming <==> r.callType == 2)
      && c.phone == NormalizePhone(r.phoneNumber)
      && c.startDate == r.startDate && c.failedCode == r.failedCode
  {
  }

  /**
   * Keeps the calls of known managers, attributes them, and sorts them
   * stably by start date compared as strings.
   */
  method FilterCalls(raw: seq<RawCall>, managers: map<string, string>) returns (calls: seq<Call>)
    ensures SortedByStart(calls)
    ensures multiset(calls) == multiset(Attributed(raw, managers))
    ensures forall date :: WithStart(calls, date) == WithStart(Attributed(raw, managers), date)
    ensures forall c :: c in calls <==>
      exists r :: r in raw && Admitted(r, managers) && c == Attribute(r, managers)
    ensures forall c :: c in calls ==>
      Truthy(c.userId) && c.userId in managers && c.userName == managers[c.userId]
  {
    var filtered := KeepManagers(raw, managers);
    calls := SortByStart(filtered);
    SortedAttributed(raw, managers, calls);
  }

  /** The filtering loop: attributes each record of a known manager, in input order. */
  method KeepManagers(raw: seq<RawCall>, managers: map<string, string>) returns (filtered: seq<Call>)
    ensures filtered == Attributed(raw, managers)
  {
    filtered := [];
    var i := 0;
    while i < |raw|
      invariant 0 <= i <= |raw|
      invariant filtered == Attributed(raw[..i], managers)
    {
      var call := raw[i];
      assert raw[..i + 1] == raw[..i] + [call];
      var uid := call.portalUserId;
      if uid.Some? && Truthy(uid.value) && uid.value in managers {
        var normPhone := NormalizePhone(call.phoneNumber);
        filtered := filtered + [Call(call.id, uid.value, managers[uid.value], call.portalNumber,
                                     normPhone, call.duration, call.startDate,
                                     if call.callType == IncomingCallType then Incoming else Outgoing,
                                     call.failedCode)];
      }
      i := i + 1;
    }
    assert raw[..|raw|] == raw;
  }

  /** What the sorted attributed calls satisfy; the contract of FilterCalls. */
  lemma SortedAttributed(raw: seq<RawCall>, managers: map<string, string>, calls: seq<Call>)
    requires calls == SortByStart(Attributed(raw, managers))
    ensures
      && (forall date :: WithStart(calls, date) == WithStart(Attributed(raw, managers), date))
      && (forall c :: c in calls <==>
            exists r :: r in raw && Admitted(r, managers) && c == Attribute(r, managers))
      && (forall c :: c in calls ==>
            Truthy(c.userId) && c.userId in managers && c.userName == managers[c.userId])
  {
    var filtered := Attributed(raw, managers);
    forall date ensures WithStart(calls, date) == WithStart(filtered, date) {
      SortStable(filtered, date);
    }
    forall c ensures c in calls <==>
      exists r :: r in raw && Admitted(r, managers) && c == Attribute(r, managers)
    {
      assert c in calls <==> c in multiset(filtered);
      AttributedMembership(raw, managers, c);
    }
  }
}
