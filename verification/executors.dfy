/** The two batch executors: creating every user in every target network, and
    deactivating every user after resolving its account id. The dashboard is
    an abstract gateway: each remote call is a function-valued parameter,
    and each executor also returns the log of the calls it made. */
module Executors {
  import opened Text
  import opened Records

  /** The arguments of one "create auth user" request. */
  datatype CreateRequest = CreateRequest(networkId: string, name: Option<string>, email: string,
                                         password: string, zone: string)

  /** A lookup of a user's id by email, or the deletion of that id. */
  datatype Call = LookupCall(networkId: string, email: string)
                | DeactivateCall(networkId: string, userId: string)

  /** The authorization zone label of a network's appliance. */
  function ZoneLabel(networkName: string): string
  {
    networkName + " - appliance"
  }

  function RequestFor(n: Network, u: User): CreateRequest
  {
    CreateRequest(n.id, u.username, u.email, u.password, ZoneLabel(n.name))
  }

  /** The status record kept for creating user u in network n: the gateway's
      success and error, tagged with the network, the user's name and the
      user's password. */
  function CreateStatus(n: Network, u: User, o: Outcome): Status
  {
    var (ok, err) := Report(o);
    Status(n.name, u.username, u.password, ok, err)
  }

  /** Position of the record for the i-th network and j-th user in a batch of
      `width` users per network. */
  function Slot(i: nat, j: nat, width: nat): nat
  {
    i * width + j
  }

  /** The slots of the networks before the last come before the last
      network's block of `width` slots. */
  lemma SlotRange(i: nat, j: nat, width: nat, n: nat)
    requires i < n && j < width
    ensures Slot(i, j, width) < n * width
    ensures i < n - 1 ==> Slot(i, j, width) < (n - 1) * width
    ensures i == n - 1 ==> Slot(i, j, width) == (n - 1) * width + j
  {
    MulMonotone(i + 1, n, width);
    if i < n - 1 {
      MulMonotone(i + 1, n - 1, width);
    }
  }

  lemma {:induction false} MulMonotone(a: nat, b: nat, w: nat)
    requires a <= b
    ensures a * w <= b * w
    ensures (a + 1) * w == a * w + w
  {
    if w > 0 {
      MulMonotone(a, b, w - 1);
    }
  }

  // ---------------------------------------------------------------------
  // Creation

  /** The records for creating the first k users in network n, in user order. */
  function CreateRow(n: Network, users: seq<User>, create: CreateRequest -> Outcome): seq<Status>
  {
    if users == [] then []
    else
      var u := users[|users| - 1];
      CreateRow(n, users[..|users| - 1], create) + [CreateStatus(n, u, create(RequestFor(n, u)))]
  }

  /** The records of the whole creation batch: network by network, and within
      a network user by user. */
  function CreateAll(targets: Table, users: seq<User>, create: CreateRequest -> Outcome): seq<Status>
  {
    if targets == [] then []
    else
      CreateAll(targets[..|targets| - 1], users, create)
        + CreateRow(targets[|targets| - 1], users, create)
  }

  function CreateRowCalls(n: Network, users: seq<User>): seq<CreateRequest>
  {
    if users == [] then []
    else CreateRowCalls(n, users[..|users| - 1]) + [RequestFor(n, users[|users| - 1])]
  }

  /** The create requests of the whole batch, in the order they are sent. */
  function CreateAllCalls(targets: Table, users: seq<User>): seq<CreateRequest>
  {
    if targets == [] then []
    else CreateAllCalls(targets[..|targets| - 1], users) + CreateRowCalls(targets[|targets| - 1], users)
  }

  /** createUsers: for each target network, for each user, send one create
      request and keep one status record. */
  method CreateUsers(users: seq<User>, targets: Table, create: CreateRequest -> Outcome)
    returns (finalStatus: seq<Status>, calls: seq<CreateRequest>)
    ensures finalStatus == CreateAll(targets, users, create)
    ensures calls == CreateAllCalls(targets, users)
  {
    finalStatus, calls := [], [];
    for i := 0 to |targets|
      invariant finalStatus == CreateAll(targets[..i], users, create)
      invariant calls == CreateAllCalls(targets[..i], users)
    {
      var network := targets[i];
      ghost var before, callsBefore := finalStatus, calls;
      for j := 0 to |users|
        invariant finalStatus == before + CreateRow(network, users[..j], create)
        invariant calls == callsBefore + CreateRowCalls(network, users[..j])
      {
        var user := users[j];
        var request := RequestFor(network, user);
        var status := CreateStatus(network, user, create(request));
        finalStatus := finalStatus + [status];
        calls := calls + [request];
        assert users[..j + 1][..j] == users[..j];
      }
      assert users[..|users|] == users;
      assert targets[..i + 1][..i] == targets[..i];
    }
    assert targets[..|targets|] == targets;
  }

  lemma {:induction false} CreateRowShape(n: Network, users: seq<User>, create: CreateRequest -> Outcome)
    ensures |CreateRow(n, users, create)| == |users| == |CreateRowCalls(n, users)|
    ensures forall j :: 0 <= j < |users| ==>
      CreateRow(n, users, create)[j] == CreateStatus(n, users[j], create(RequestFor(n, users[j])))
      && CreateRowCalls(n, users)[j] == RequestFor(n, users[j])
  {
    if users != [] {
      CreateRowShape(n, users[..|users| - 1], create);
    }
  }

  lemma {:induction false} CreateAllLength(targets: Table, users: seq<User>, create: CreateRequest -> Outcome)
    ensures |CreateAll(targets, users, create)| == |targets| * |users|
    ensures |CreateAllCalls(targets, users)| == |targets| * |users|
  {
    if targets != [] {
      var m := |targets| - 1;
      CreateAllLength(targets[..m], users, create);
      CreateRowShape(targets[m], users, create);
      MulMonotone(m, m, |users|);
    }
  }

  /** The record and the request at the slot of the i-th network and j-th user. */
  lemma {:induction false} CreateAllAt(targets: Table, users: seq<User>, create: CreateRequest -> Outcome,
                                       i: nat, j: nat)
    requires i < |targets| && j < |users|
    ensures Slot(i, j, |users|) < |targets| * |users|
    ensures |CreateAll(targets, users, create)| == |CreateAllCalls(targets, users)| == |targets| * |users|
    ensures CreateAll(targets, users, create)[Slot(i, j, |users|)]
            == CreateStatus(targets[i], users[j], create(RequestFor(targets[i], users[j])))
    ensures CreateAllCalls(targets, users)[Slot(i, j, |users|)] == RequestFor(targets[i], users[j])
  {
    var m := |targets| - 1;
    var p := targets[..m];
    CreateAllLength(targets, users, create);
    CreateAllLength(p, users, create);
    SlotRange(i, j, |users|, |targets|);
    if i < m {
      CreateAllAt(p, users, create, i, j);
      assert targets[i] == p[i];
    } else {
      CreateRowShape(targets[m], users, create);
    }
  }

  /** The creation batch accounts for every (network, user) pair exactly once,
      network-major: record i * |users| + j belongs to the i-th network and
      the j-th user, carries that network's name, that user's name and
      password and the gateway's verdict on that pair's request, and that
      request goes to that network's id with zone "<network name> - appliance". */
  lemma CreateAllShape(targets: Table, users: seq<User>, create: CreateRequest -> Outcome)
    ensures |CreateAll(targets, users, create)| == |targets| * |users|
    ensures |CreateAllCalls(targets, users)| == |targets| * |users|
    ensures forall i, j :: 0 <= i < |targets| && 0 <= j < |users| ==>
      Slot(i, j, |users|) < |targets| * |users|
      && CreateAllCalls(targets, users)[Slot(i, j, |users|)] ==
           CreateRequest(targets[i].id, users[j].username, users[j].email, users[j].password,
                         targets[i].name + " - appliance")
      && CreateAll(targets, users, create)[Slot(i, j, |users|)] ==
           Status(targets[i].name, users[j].username, users[j].password,
                  create(RequestFor(targets[i], users[j])).Succeeded?,
                  Report(create(RequestFor(targets[i], users[j]))).1)
  {
    CreateAllLength(targets, users, create);
    forall i, j | 0 <= i < |targets| && 0 <= j < |users|
      ensures Slot(i, j, |users|) < |targets| * |users|
      ensures CreateAllCalls(targets, users)[Slot(i, j, |users|)] == RequestFor(targets[i], users[j])
      ensures CreateAll(targets, users, create)[Slot(i, j, |users|)]
              == CreateStatus(targets[i], users[j], create(RequestFor(targets[i], users[j])))
    {
      CreateAllAt(targets, users, create, i, j);
    }
  }

  /** With the dictionary's unique keys, each request goes to the id the
      dictionary holds for that network's name. */
  lemma CreateCallsUseTableIds(targets: Table, users: seq<User>, i: nat, j: nat)
    requires UniqueNames(targets) && i < |targets| && j < |users|
    ensures Slot(i, j, |users|) < |CreateAllCalls(targets, users)|
    ensures Get(targets, targets[i].name) == Some(CreateAllCalls(targets, users)[Slot(i, j, |users|)].networkId)
  {
    CreateAllAt(targets, users, (r: CreateRequest) => Succeeded, i, j);
    GetEntry(targets, i);
  }

  // ---------------------------------------------------------------------
  // Deactivation

  /** Index of the first target network, at or after k, whose lookup for the
      email returns an id; |targets| when there is none. */
  function ScanFrom(targets: Table, email: string, lookup: (string, string) -> Option<string>, k: nat): (h: nat)
    requires k <= |targets|
    ensures k <= h <= |targets|
    ensures forall j :: k <= j < h ==> lookup(targets[j].id, email).None?
    ensures h < |targets| ==> lookup(targets[h].id, email).Some?
    decreases |targets| - k
  {
    if k == |targets| then k
    else if lookup(targets[k].id, email).Some? then k
    else ScanFrom(targets, email, lookup, k + 1)
  }

  function FirstHit(targets: Table, email: string, lookup: (string, string) -> Option<string>): nat
  {
    ScanFrom(targets, email, lookup, 0)
  }

  /** The user id the scan settles on: that of the first network that knows
      the email, if any. */
  function ResolvedId(targets: Table, email: string, lookup: (string, string) -> Option<string>): Option<string>
  {
    var h := FirstHit(targets, email, lookup);
    if h < |targets| then lookup(targets[h].id, email) else None
  }

  /** The lookups the scan makes: one per network, in order, up to and
      including the first that answers. */
  function LookupCalls(targets: Table, email: string, lookup: (string, string) -> Option<string>): seq<Call>
  {
    var h := FirstHit(targets, email, lookup);
    var count := if h < |targets| then h + 1 else |targets|;
    seq(count, k requires 0 <= k < count => LookupCall(targets[k].id, email))
  }

  /** The id lookup of deactivateUsers: ask each target network in turn and
      stop at the first that knows the email. */
  method ResolveUserId(targets: Table, email: string, lookup: (string, string) -> Option<string>)
    returns (userId: Option<string>, calls: seq<Call>)
    ensures userId == ResolvedId(targets, email, lookup)
    ensures calls == LookupCalls(targets, email, lookup)
  {
    userId, calls := None, [];
    ghost var h := FirstHit(targets, email, lookup);
    for k := 0 to |targets|
      invariant k <= h
      invariant userId == None
      invariant calls == seq(k, m requires 0 <= m < k => LookupCall(targets[m].id, email))
    {
      userId := lookup(targets[k].id, email);
      calls := calls + [LookupCall(targets[k].id, email)];
      if userId.Some? {
        assert k == h;
        return;
      }
    }
  }

  /** The records of deleting user id `userId` (of email `email`) in every
      target network, in table order. */
  function DeactivateRow(targets: Table, email: string, userId: string,
                         deactivate: (string, string) -> Outcome): seq<Status>
  {
    if targets == [] then []
    else
      var n := targets[|targets| - 1];
      var (ok, err) := Report(deactivate(n.id, userId));
      DeactivateRow(targets[..|targets| - 1], email, userId, deactivate)
        + [Status(n.name, Some(email), "", ok, err)]
  }

  function DeactivateRowCalls(targets: Table, userId: string): seq<Call>
  {
    if targets == [] then []
    else DeactivateRowCalls(targets[..|targets| - 1], userId) + [DeactivateCall(targets[|targets| - 1].id, userId)]
  }

  /** Delete one resolved user id in every target network, in table order. */
  method DeactivateEverywhere(targets: Table, email: string, userId: string,
                              deactivate: (string, string) -> Outcome)
    returns (statuses: seq<Status>, calls: seq<Call>)
    ensures statuses == DeactivateRow(targets, email, userId, deactivate)
    ensures calls == DeactivateRowCalls(targets, userId)
  {
    statuses, calls := [], [];
    for k := 0 to |targets|
      invariant statuses == DeactivateRow(targets[..k], email, userId, deactivate)
      invariant calls == DeactivateRowCalls(targets[..k], userId)
    {
      var network := targets[k];
      var (ok, err) := Report(deactivate(network.id, userId));
      statuses := statuses + [Status(network.name, Some(email), "", ok, err)];
      calls := calls + [DeactivateCall(network.id, userId)];
      assert targets[..k + 1][..k] == targets[..k];
    }
    assert targets[..|targets|] == targets;
  }

  /** The single record kept for a user no target network knows. */
  function NotFound(email: string): Status
  {
    Status("ALL", Some(email), "", false, Message("User not found"))
  }

  /** The records kept for one user. */
  function UserStatuses(targets: Table, u: User, lookup: (string, string) -> Option<string>,
                        deactivate: (string, string) -> Outcome): seq<Status>
  {
    match ResolvedId(targets, u.email, lookup)
    case None => [NotFound(u.email)]
    case Some(id) => DeactivateRow(targets, u.email, id, deactivate)
  }

  /** The gateway calls made for one user. */
  function UserCalls(targets: Table, u: User, lookup: (string, string) -> Option<string>): seq<Call>
  {
    LookupCalls(targets, u.email, lookup)
      + match ResolvedId(targets, u.email, lookup)
        case None => []
        case Some(id) => DeactivateRowCalls(targets, id)
  }

  /** The records of the whole deactivation batch, user by user. */
  function DeactivateAll(targets: Table, users: seq<User>, lookup: (string, string) -> Option<string>,
                         deactivate: (string, string) -> Outcome): seq<Status>
  {
    if users == [] then []
    else DeactivateAll(targets, users[..|users| - 1], lookup, deactivate)
           + UserStatuses(targets, users[|users| - 1], lookup, deactivate)
  }

  function DeactivateAllCalls(targets: Table, users: seq<User>,
                              lookup: (string, string) -> Option<string>): seq<Call>
  {
    if users == [] then []
    else DeactivateAllCalls(targets, users[..|users| - 1], lookup) + UserCalls(targets, users[|users| - 1], lookup)
  }

  /** deactivateUsers: for each user, resolve the account id with a single
      scan of the target networks; keep one "ALL / User not found" record if
      none knows the email, otherwise delete the id in every target network
      and keep one record per network. With no target network the source
      fails on its "not found" message, so a non-empty user list needs one. */
  method DeactivateUsers(users: seq<User>, targets: Table, lookup: (string, string) -> Option<string>,
                         deactivate: (string, string) -> Outcome)
    returns (finalStatus: seq<Status>, calls: seq<Call>)
    requires |targets| > 0 || users == []
    ensures finalStatus == DeactivateAll(targets, users, lookup, deactivate)
    ensures calls == DeactivateAllCalls(targets, users, lookup)
  {
    finalStatus, calls := [], [];
    for i := 0 to |users|
      invariant finalStatus == DeactivateAll(targets, users[..i], lookup, deactivate)
      invariant calls == DeactivateAllCalls(targets, users[..i], lookup)
    {
      DeactivateStep(targets, users, i, lookup, deactivate);
      var statuses, userCalls := DeactivateUser(targets, users[i], lookup, deactivate);
      finalStatus := finalStatus + statuses;
      calls := calls + userCalls;
    }
    assert users[..|users|] == users;
  }

  /** The body of the per-user loop: resolve the id, give up on this user
      with a "not found" record when there is none, otherwise delete it in
      every target network. */
  method DeactivateUser(targets: Table, u: User, lookup: (string, string) -> Option<string>,
                        deactivate: (string, string) -> Outcome)
    returns (statuses: seq<Status>, calls: seq<Call>)
    ensures statuses == UserStatuses(targets, u, lookup, deactivate)
    ensures calls == UserCalls(targets, u, lookup)
  {
    var userId, lookups := ResolveUserId(targets, u.email, lookup);
    if userId == None {
      statuses, calls := [NotFound(u.email)], lookups;
      assert calls == lookups + [];
      return;
    }
    var deletes;
    statuses, deletes := DeactivateEverywhere(targets, u.email, userId.value, deactivate);
    calls := lookups + deletes;
  }

  /** One more user appends that user's records and calls. */
  lemma DeactivateStep(targets: Table, users: seq<User>, i: nat, lookup: (string, string) -> Option<string>,
                       deactivate: (string, string) -> Outcome)
    requires i < |users|
    ensures DeactivateAll(targets, users[..i + 1], lookup, deactivate)
      == DeactivateAll(targets, users[..i], lookup, deactivate) + UserStatuses(targets, users[i], lookup, deactivate)
    ensures DeactivateAllCalls(targets, users[..i + 1], lookup)
      == DeactivateAllCalls(targets, users[..i], lookup) + UserCalls(targets, users[i], lookup)
  {
    assert users[..i + 1][..i] == users[..i];
  }

  /** The id scan asks each target network at most once, in table order, and
      stops at the first network that knows the email; the id it settles on
      is that network's answer, and there is none exactly when no network
      knows the email. */
  lemma LookupSpec(targets: Table, email: string, lookup: (string, string) -> Option<string>)
    ensures |LookupCalls(targets, email, lookup)| <= |targets|
    ensures forall k :: 0 <= k < |LookupCalls(targets, email, lookup)| ==>
      LookupCalls(targets, email, lookup)[k] == LookupCall(targets[k].id, email)
    ensures ResolvedId(targets, email, lookup).None? <==>
      forall k :: 0 <= k < |targets| ==> lookup(targets[k].id, email).None?
    ensures ResolvedId(targets, email, lookup).None? ==> |LookupCalls(targets, email, lookup)| == |targets|
    ensures ResolvedId(targets, email, lookup).Some? ==>
      var c := |LookupCalls(targets, email, lookup)|;
      c > 0 && lookup(targets[c - 1].id, email) == ResolvedId(targets, email, lookup)
      && forall k :: 0 <= k < c - 1 ==> lookup(targets[k].id, email).None?
  {
  }

  lemma {:induction false} DeactivateRowShape(targets: Table, email: string, userId: string,
                                              deactivate: (string, string) -> Outcome)
    ensures |DeactivateRow(targets, email, userId, deactivate)| == |targets|
    ensures |DeactivateRowCalls(targets, userId)| == |targets|
    ensures forall k :: 0 <= k < |targets| ==>
      DeactivateRow(targets, email, userId, deactivate)[k] ==
        Status(targets[k].name, Some(email), "", deactivate(targets[k].id, userId).Succeeded?,
               Report(deactivate(targets[k].id, userId)).1)
      && DeactivateRowCalls(targets, userId)[k] == DeactivateCall(targets[k].id, userId)
  {
    if targets != [] {
      DeactivateRowShape(targets[..|targets| - 1], email, userId, deactivate);
    }
  }

  /** Per user, either the account is unknown to every target network and the
      user gets exactly the one "ALL / User not found" record and no delete
      call, or the user gets exactly one record per target network, in table
      order, tagged with the email and the empty password, and one delete of
      the resolved id per network. */
  lemma UserStatusesShape(targets: Table, u: User, lookup: (string, string) -> Option<string>,
                          deactivate: (string, string) -> Outcome)
    ensures var r := UserStatuses(targets, u, lookup, deactivate);
      var calls := UserCalls(targets, u, lookup);
      var lookups := LookupCalls(targets, u.email, lookup);
      match ResolvedId(targets, u.email, lookup)
      case None =>
        && r == [Status("ALL", Some(u.email), "", false, Message("User not found"))]
        && calls == lookups
        && forall c :: c in calls ==> c.LookupCall?
      case Some(id) =>
        && |r| == |targets|
        && (forall k :: 0 <= k < |targets| ==>
              r[k].network == targets[k].name && r[k].username == Some(u.email) && r[k].password == ""
              && r[k].success == deactivate(targets[k].id, id).Succeeded?)
        && |calls| == |lookups| + |targets|
        && forall k :: 0 <= k < |targets| ==> calls[|lookups| + k] == DeactivateCall(targets[k].id, id)
  {
    LookupSpec(targets, u.email, lookup);
    match ResolvedId(targets, u.email, lookup)
    case None =>
    case Some(id) =>
      DeactivateRowShape(targets, u.email, id, deactivate);
  }

  /** How many of the users some target network knows. */
  function FoundCount(targets: Table, users: seq<User>, lookup: (string, string) -> Option<string>): nat
  {
    if users == [] then 0
    else FoundCount(targets, users[..|users| - 1], lookup)
         + (if ResolvedId(targets, users[|users| - 1].email, lookup).Some? then 1 else 0)
  }

  /** The deactivation batch is fully accounted for: |targets| records for
      every user found and one record for every user not found. */
  lemma {:induction false} DeactivateAllCount(targets: Table, users: seq<User>,
                                              lookup: (string, string) -> Option<string>,
                                              deactivate: (string, string) -> Outcome)
    ensures FoundCount(targets, users, lookup) <= |users|
    ensures |DeactivateAll(targets, users, lookup, deactivate)|
            == FoundCount(targets, users, lookup) * |targets| + (|users| - FoundCount(targets, users, lookup))
  {
    if users != [] {
      var u := users[|users| - 1];
      var f := FoundCount(targets, users[..|users| - 1], lookup);
      DeactivateAllCount(targets, users[..|users| - 1], lookup, deactivate);
      match ResolvedId(targets, u.email, lookup)
      case None =>
      case Some(id) =>
        DeactivateRowShape(targets, u.email, id, deactivate);
        MulMonotone(f, f, |targets|);
    }
  }
}
