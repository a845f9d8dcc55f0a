// What one reconcile pass promises: forward-only progress, a persisted write
// only after the side effect it records, abort on the first error, append-only
// groups, idempotence, and resumption after a failed write.

module AwsAccountProperties {
  import opened Difference
  import opened AwsAccountController

  function Last<T>(s: seq<T>): T
    requires s != []
  {
    s[|s| - 1]
  }

  /** The calls of a trace, without their outcomes. */
  function Calls(events: seq<Event>): (r: seq<Call>)
    ensures |r| == |events|
  {
    seq(|events|, i requires 0 <= i < |events| => events[i].call)
  }

  // ---------------------------------------------------------------------------
  // The bootstrap order

  /** The state the bootstrap moves to from `a`; `Created` and `Other` have no successor. */
  function Successor(a: AccountState): AccountState
  {
    match a
    case Unset => CreatingLoginProfile
    case CreatingUser => CreatingLoginProfile
    case CreatingLoginProfile => CreatingAccessKey
    case CreatingAccessKey => Created
    case _ => a
  }

  /** How many bootstrap steps are left from `a`. */
  function StepsLeft(a: AccountState): nat
  {
    match a
    case Unset => 3
    case CreatingUser => 3
    case CreatingLoginProfile => 2
    case CreatingAccessKey => 1
    case _ => 0
  }

  /** `b` is `a` or comes after it in the bootstrap order. */
  predicate Reaches(a: AccountState, b: AccountState)
    decreases StepsLeft(a)
  {
    a == b || (StepsLeft(a) > 0 && Reaches(Successor(a), b))
  }

  /** One more bootstrap step stays reachable. */
  lemma {:induction false} ReachesStep(a: AccountState, b: AccountState)
    requires Reaches(a, b) && StepsLeft(b) > 0
    ensures Reaches(a, Successor(b)) && StepsLeft(Successor(b)) < StepsLeft(b)
    decreases StepsLeft(a)
  {
    if a != b {
      ReachesStep(Successor(a), b);
    }
  }

  /** Progress composes over successive passes. */
  lemma {:induction false} ReachesTransitive(a: AccountState, b: AccountState, c: AccountState)
    requires Reaches(a, b) && Reaches(b, c)
    ensures Reaches(a, c)
    decreases StepsLeft(a)
  {
    if a != b {
      ReachesTransitive(Successor(a), b, c);
    }
  }

  // ---------------------------------------------------------------------------
  // Properties of a trace

  /** `s` is a status that records the success of side effect `c`. */
  predicate Records(c: Call, s: AwsAccountStatus)
  {
    match c
    case CreateUser(_) => s.account == CreatingLoginProfile
    case CreateLoginProfile(_, reset) => reset && s.account == CreatingAccessKey
    case CreateAccessKeyPair(_) => s.account == Created
    case AddUserToGroup(g, _) => s.userGroups != [] && Last(s.userGroups) == g
    case _ => false
  }

  /** Every status write comes right after the successful side effect it records. */
  predicate Checkpointed(events: seq<Event>)
  {
    forall i :: 0 <= i < |events| && events[i].call.UpdateStatus? ==>
      0 < i && events[i - 1].ok && Records(events[i - 1].call, events[i].call.status)
  }

  /** Every login profile is created right after a successful password generation. */
  predicate PasswordBeforeProfile(events: seq<Event>)
  {
    forall i :: 0 <= i < |events| && events[i].call.CreateLoginProfile? ==>
      0 < i && events[i - 1] == Event(PasswordRequest, true)
  }

  /** No call ever removes the user from a group. */
  predicate NeverRemoves(events: seq<Event>)
  {
    forall i :: 0 <= i < |events| ==> !events[i].call.RemoveUserFromGroup?
  }

  /** Only the last call may have failed, and the pass ends in error exactly when it did. */
  predicate Settled(p: Pass)
  {
    (forall i :: 0 <= i < |p.events| - 1 ==> p.events[i].ok) &&
    match p.err
    case None => p.events == [] || Last(p.events).ok
    case Some(c) => p.events != [] && Last(p.events) == Event(c, false)
  }

  /** The status of the last successful write in the trace, or `initial` if there is none. */
  function LastWritten(events: seq<Event>, initial: AwsAccountStatus): AwsAccountStatus
  {
    if events == [] then initial
    else if Last(events).ok && Last(events).call.UpdateStatus? then Last(events).call.status
    else LastWritten(events[..|events| - 1], initial)
  }

  /** The groups of the `AddUserToGroup` calls of a trace, in call order. */
  function GroupCalls(events: seq<Event>): seq<string>
  {
    if events == [] then []
    else GroupCalls(events[..|events| - 1]) + (if Last(events).call.AddUserToGroup? then [Last(events).call.group] else [])
  }

  /** Every call from index `n` on is a group join or a status write. */
  predicate OnlyGroupWork(events: seq<Event>, n: nat)
  {
    forall i :: n <= i < |events| ==> events[i].call.AddUserToGroup? || events[i].call.UpdateStatus?
  }

  /** What holds of a pass at every point between two calls, for a resource whose status was `start`. */
  ghost predicate Inv(p: Pass, start: AwsAccountStatus)
  {
    p.events != [] && p.events[0].call == Get &&
    Checkpointed(p.events) && PasswordBeforeProfile(p.events) && NeverRemoves(p.events) && Settled(p) &&
    p.stored == LastWritten(p.events, start) && Reaches(start.account, p.stored.account) &&
    (p.err.None? ==> p.local == p.stored)
  }

  /** Appending one event keeps the trace properties, when the event meets
      the condition each of them puts on it. */
  lemma TraceSnoc(events: seq<Event>, e: Event)
    requires events != [] && events[0].call == Get
    requires Checkpointed(events) && PasswordBeforeProfile(events) && NeverRemoves(events)
    requires e.call.UpdateStatus? ==> Last(events).ok && Records(Last(events).call, e.call.status)
    requires e.call.CreateLoginProfile? ==> Last(events) == Event(PasswordRequest, true)
    requires !e.call.RemoveUserFromGroup?
    ensures var t := events + [e];
      t[0].call == Get && Checkpointed(t) && PasswordBeforeProfile(t) && NeverRemoves(t) &&
      t[..|events|] == events && Last(t) == e
  {
    var t := events + [e];
    var n := |events|;
    forall i | 0 <= i < |t| && t[i].call.UpdateStatus?
      ensures 0 < i && t[i - 1].ok && Records(t[i - 1].call, t[i].call.status)
    {
      if i == n {
        assert t[i - 1] == Last(events);
      } else {
        assert t[i - 1] == events[i - 1] && t[i] == events[i];
      }
    }
    forall i | 0 <= i < |t| && t[i].call.CreateLoginProfile?
      ensures 0 < i && t[i - 1] == Event(PasswordRequest, true)
    {
      if i == n {
        assert t[i - 1] == Last(events);
      } else {
        assert t[i - 1] == events[i - 1] && t[i] == events[i];
      }
    }
    assert t[..n] == events;
  }

  // ---------------------------------------------------------------------------
  // One call at a time

  /** The fetch establishes the invariant. */
  lemma FetchEstablishes(status: AwsAccountStatus, answers: seq<bool>)
    ensures var q := Ask(Pass(status, status, [], answers, None), Get);
      Inv(q, status) && GroupCalls(q.events) == [] && q.stored == status
  {
    var q := Ask(Pass(status, status, [], answers, None), Get);
    assert q.events == [Event(Get, Answer(answers))];
    assert q.events[..0] == [];
    assert LastWritten(q.events, status) == status;
    assert GroupCalls(q.events) == [];
    assert Checkpointed(q.events) && PasswordBeforeProfile(q.events) && NeverRemoves(q.events);
    assert Settled(q);
  }

  /** A call other than a status write keeps the invariant and the statuses. */
  lemma AskKeeps(p: Pass, c: Call, start: AwsAccountStatus)
    requires Inv(p, start) && p.err.None?
    requires !c.UpdateStatus? && !c.RemoveUserFromGroup?
    requires c.CreateLoginProfile? ==> Last(p.events) == Event(PasswordRequest, true)
    ensures var q := Ask(p, c);
      Inv(q, start) && p.events <= q.events && q.stored == p.stored && q.local == p.local &&
      GroupCalls(q.events) == GroupCalls(p.events) + (if c.AddUserToGroup? then [c.group] else [])
  {
    var q := Ask(p, c);
    TraceSnoc(p.events, Event(c, Answer(p.answers)));
  }

  /** Writing status `s` right after the successful side effect `c` that it records keeps the invariant. */
  lemma PersistKeeps(p: Pass, c: Call, s: AwsAccountStatus, start: AwsAccountStatus)
    requires Inv(p, start) && p.err.None?
    requires Last(p.events) == Event(c, true) && Records(c, s) && Reaches(start.account, s.account)
    ensures var q := Persist(p.(local := s));
      Inv(q, start) && p.events <= q.events && q.stored == (if q.err.None? then s else p.stored) &&
      GroupCalls(q.events) == GroupCalls(p.events) && OnlyGroupWork(q.events, |p.events|)
  {
    var q := Persist(p.(local := s));
    TraceSnoc(p.events, Event(UpdateStatus(s), Answer(p.answers)));
  }

  // ---------------------------------------------------------------------------
  // One stage at a time

  lemma CreateUserStageKeeps(p: Pass, user: string, start: AwsAccountStatus)
    requires Inv(p, start) && p.err.None?
    ensures var q := CreateUserStage(p, user);
      Inv(q, start) && p.events <= q.events && q.stored.userGroups == p.stored.userGroups &&
      GroupCalls(q.events) == GroupCalls(p.events)
  {
    if p.local.account == CreatingUser || p.local.account == Unset {
      var q := Ask(p, CreateUser(user));
      AskKeeps(p, CreateUser(user), start);
      if q.err.None? {
        ReachesStep(start.account, q.stored.account);
        PersistKeeps(q, CreateUser(user), q.local.(account := CreatingLoginProfile), start);
      }
    }
  }

  lemma LoginProfileStageKeeps(p: Pass, user: string, start: AwsAccountStatus)
    requires Inv(p, start) && p.err.None?
    ensures var q := LoginProfileStage(p, user);
      Inv(q, start) && p.events <= q.events && q.stored.userGroups == p.stored.userGroups &&
      GroupCalls(q.events) == GroupCalls(p.events)
  {
    if p.local.account == CreatingLoginProfile {
      var q := Ask(p, PasswordRequest);
      ProfileCallsKeep(p, user, start);
      if q.err.None? {
        var q' := Ask(q, CreateLoginProfile(user, true));
        if q'.err.None? {
          ReachesStep(start.account, q'.stored.account);
          PersistKeeps(q', CreateLoginProfile(user, true), q'.local.(account := CreatingAccessKey), start);
        }
      }
    }
  }

  /** The password generation and the login-profile creation keep the invariant and both statuses. */
  lemma ProfileCallsKeep(p: Pass, user: string, start: AwsAccountStatus)
    requires Inv(p, start) && p.err.None?
    ensures var q := Ask(p, PasswordRequest);
      Inv(q, start) && p.events <= q.events && q.stored == p.stored && q.local == p.local &&
      GroupCalls(q.events) == GroupCalls(p.events)
    ensures var q := Ask(p, PasswordRequest);
      q.err.None? ==>
        var q' := Ask(q, CreateLoginProfile(user, true));
        Inv(q', start) && p.events <= q'.events && q'.stored == p.stored && q'.local == p.local &&
        GroupCalls(q'.events) == GroupCalls(p.events) && Last(q'.events).call == CreateLoginProfile(user, true)
  {
    var q := Ask(p, PasswordRequest);
    AskKeeps(p, PasswordRequest, start);
    if q.err.None? {
      AskKeeps(q, CreateLoginProfile(user, true), start);
    }
  }

  lemma AccessKeyStageKeeps(p: Pass, user: string, start: AwsAccountStatus)
    requires Inv(p, start) && p.err.None?
    ensures var q := AccessKeyStage(p, user);
      Inv(q, start) && p.events <= q.events && q.stored.userGroups == p.stored.userGroups &&
      GroupCalls(q.events) == GroupCalls(p.events)
  {
    if p.local.account == CreatingAccessKey {
      var q := Ask(p, CreateAccessKeyPair(user));
      AskKeeps(p, CreateAccessKeyPair(user), start);
      if q.err.None? {
        ReachesStep(start.account, q.stored.account);
        PersistKeeps(q, CreateAccessKeyPair(user), q.local.(account := Created), start);
      }
    }
  }

  /** One round of the group loop: the join call and, if it succeeded, the write that records it. */
  lemma JoinRoundKeeps(p: Pass, user: string, g: string, start: AwsAccountStatus)
    requires Inv(p, start) && p.err.None?
    ensures var q := Ask(p, AddUserToGroup(g, user));
      Inv(q, start) && p.events <= q.events && q.stored == p.stored &&
      GroupCalls(q.events) == GroupCalls(p.events) + [g] &&
      OnlyGroupWork(q.events, |p.events|) && |q.events| == |p.events| + 1
    ensures var q := Ask(p, AddUserToGroup(g, user));
      q.err.None? ==>
        var j := Join(q, g);
        Inv(j, start) && p.events <= j.events && |j.events| == |p.events| + 2 &&
        j.stored == (if j.err.None? then p.stored.(userGroups := p.stored.userGroups + [g]) else p.stored) &&
        GroupCalls(j.events) == GroupCalls(p.events) + [g] && OnlyGroupWork(j.events, |p.events|) &&
        j.events[|p.events|].call == AddUserToGroup(g, user)
  {
    var q := Ask(p, AddUserToGroup(g, user));
    AskKeeps(p, AddUserToGroup(g, user), start);
    if q.err.None? {
      var s := q.local.(userGroups := q.local.userGroups + [g]);
      PersistKeeps(q, AddUserToGroup(g, user), s, start);
      assert Join(q, g) == Persist(q.(local := s));
    }
  }

  /** The group loop keeps the invariant, leaves the bootstrap state alone and
      makes only joins and writes. */
  lemma {:induction false} AddGroupsKeeps(p: Pass, user: string, todo: seq<string>, start: AwsAccountStatus)
    requires Inv(p, start) && p.err.None?
    ensures var r := AddGroups(p, user, todo);
      Inv(r, start) && p.events <= r.events && r.stored.account == p.stored.account &&
      OnlyGroupWork(r.events, |p.events|)
    decreases |todo|
  {
    if todo != [] {
      var g := todo[0];
      var q := Ask(p, AddUserToGroup(g, user));
      JoinRoundKeeps(p, user, g, start);
      if q.err.None? {
        var j := Join(q, g);
        if j.err.None? {
          AddGroupsKeeps(j, user, todo[1..], start);
        }
      }
    }
  }

  /** One round of the group loop, as seen by the persisted groups and the join calls. */
  lemma JoinRoundGroups(p: Pass, user: string, g: string)
    requires p.err.None? && p.local == p.stored
    ensures var q := Ask(p, AddUserToGroup(g, user));
      q.stored == p.stored && GroupCalls(q.events) == GroupCalls(p.events) + [g] &&
      (q.err.None? ==>
        var j := Join(q, g);
        GroupCalls(j.events) == GroupCalls(p.events) + [g] &&
        (j.err.None? ==> j.local == j.stored && j.stored.userGroups == p.stored.userGroups + [g]) &&
        (j.err.Some? ==> j.stored == p.stored))
  {
    var q := Ask(p, AddUserToGroup(g, user));
    assert q.events[..|q.events| - 1] == p.events;
    if q.err.None? {
      var j := Join(q, g);
      assert j.events[..|j.events| - 1] == q.events;
    }
  }

  /** Sequence arithmetic for one more round of the group loop. */
  lemma PrefixAfterHead<T>(todo: seq<T>, k: int)
    requires 0 <= k <= |todo| - 1
    ensures [todo[0]] + todo[1..][..k] == todo[..k + 1]
    ensures [todo[0]] + todo[1..] == todo
    ensures k < |todo| - 1 ==> [todo[0]] + todo[1..][..k + 1] == todo[..k + 2]
  {
  }

  /** The group loop appends to the persisted groups exactly the groups of
      `todo` it joined, a prefix of `todo`; on error it had also tried the next one. */
  lemma {:induction false} AddGroupsJoinsPrefix(p: Pass, user: string, todo: seq<string>)
    requires p.err.None? && p.local == p.stored
    ensures var r := AddGroups(p, user, todo);
      var k := |r.stored.userGroups| - |p.stored.userGroups|;
      0 <= k <= |todo| && r.stored.userGroups == p.stored.userGroups + todo[..k]
    ensures var r := AddGroups(p, user, todo);
      r.err.None? ==> r.stored.userGroups == p.stored.userGroups + todo && GroupCalls(r.events) == GroupCalls(p.events) + todo
    ensures var r := AddGroups(p, user, todo);
      var k := |r.stored.userGroups| - |p.stored.userGroups|;
      r.err.Some? ==> 0 <= k < |todo| && GroupCalls(r.events) == GroupCalls(p.events) + todo[..k + 1]
    decreases |todo|, 1
  {
    var r := AddGroups(p, user, todo);
    if todo == [] {
      assert GroupCalls(p.events) + todo == GroupCalls(p.events);
      assert p.stored.userGroups + todo[..0] == p.stored.userGroups;
    } else {
      var g := todo[0];
      var q := Ask(p, AddUserToGroup(g, user));
      JoinRoundGroups(p, user, g);
      assert todo[..1] == [g];
      assert p.stored.userGroups + todo[..0] == p.stored.userGroups;
      if q.err.Some? {
        assert r == q;
      } else {
        var j := Join(q, g);
        assert r == AddGroups(j, user, todo[1..]);
        if j.err.Some? {
          assert r == j;
        } else {
          JoinedThenRest(p, user, todo);
        }
      }
    }
  }

  /** The recursive case of AddGroupsJoinsPrefix: the first group was joined and recorded. */
  lemma {:induction false} JoinedThenRest(p: Pass, user: string, todo: seq<string>)
    requires p.err.None? && p.local == p.stored && todo != []
    requires Ask(p, AddUserToGroup(todo[0], user)).err.None?
    requires Join(Ask(p, AddUserToGroup(todo[0], user)), todo[0]).err.None?
    ensures var r := AddGroups(p, user, todo);
      var k := |r.stored.userGroups| - |p.stored.userGroups|;
      0 <= k <= |todo| && r.stored.userGroups == p.stored.userGroups + todo[..k]
    ensures var r := AddGroups(p, user, todo);
      r.err.None? ==> r.stored.userGroups == p.stored.userGroups + todo && GroupCalls(r.events) == GroupCalls(p.events) + todo
    ensures var r := AddGroups(p, user, todo);
      var k := |r.stored.userGroups| - |p.stored.userGroups|;
      r.err.Some? ==> 0 <= k < |todo| && GroupCalls(r.events) == GroupCalls(p.events) + todo[..k + 1]
    decreases |todo|, 0
  {
    var g, rest := todo[0], todo[1..];
    var j := Join(Ask(p, AddUserToGroup(g, user)), g);
    JoinRoundGroups(p, user, g);
    var r := AddGroups(j, user, rest);
    assert AddGroups(p, user, todo) == r;
    AddGroupsJoinsPrefix(j, user, rest);
    var k := |r.stored.userGroups| - |j.stored.userGroups|;
    PrefixAfterHead(todo, k);
    var joined, calls := p.stored.userGroups, GroupCalls(p.events);
    assert j.stored.userGroups == joined + [g] && GroupCalls(j.events) == calls + [g];
    AppendAssoc(joined, [g], rest[..k]);
    if r.err.None? {
      AppendAssoc(calls, [g], rest);
    } else {
      AppendAssoc(calls, [g], rest[..k + 1]);
    }
  }

  /** Concatenation is associative. */
  lemma AppendAssoc<T>(a: seq<T>, b: seq<T>, c: seq<T>)
    ensures (a + b) + c == a + (b + c)
  {
  }

  /** With every call answered successfully, the group loop ends without
      error, keeps the bootstrap state, and adds only successful joins and writes. */
  lemma {:induction false} AddGroupsSucceeds(p: Pass, user: string, todo: seq<string>)
    requires p.err.None? && p.answers == [] && p.local == p.stored
    ensures var r := AddGroups(p, user, todo);
      r.err.None? && p.events <= r.events && r.stored.account == p.stored.account &&
      OnlyGroupWork(r.events, |p.events|) && forall i :: |p.events| <= i < |r.events| ==> r.events[i].ok
    decreases |todo|
  {
    if todo != [] {
      var j := Join(Ask(p, AddUserToGroup(todo[0], user)), todo[0]);
      assert j.err.None? && j.answers == [] && j.stored.account == p.stored.account;
      assert j.events == p.events + [Event(AddUserToGroup(todo[0], user), true), Event(UpdateStatus(j.local), true)];
      AddGroupsSucceeds(j, user, todo[1..]);
    }
  }

  /** Each stage only appends to the trace. */
  lemma StagesExtend(p: Pass, user: string)
    requires p.err.None?
    ensures p.events <= CreateUserStage(p, user).events
    ensures p.events <= LoginProfileStage(p, user).events
    ensures p.events <= AccessKeyStage(p, user).events
  {
  }

  /** The group loop only appends to the trace, and a write it fails follows
      one of its own joins. */
  lemma {:induction false} AddGroupsExtends(p: Pass, user: string, todo: seq<string>)
    ensures var r := AddGroups(p, user, todo);
      p.events <= r.events &&
      (p.err.None? && r.err.Some? ==> r.events != [] && Last(r.events).call == r.err.value) &&
      (p.err.None? && r.err.Some? && r.err.value.UpdateStatus? ==>
         |p.events| + 2 <= |r.events| && r.events[|r.events| - 2].call.AddUserToGroup?)
    decreases |todo|
  {
    if p.err.None? && todo != [] {
      var q := Ask(p, AddUserToGroup(todo[0], user));
      if q.err.None? {
        var j := Join(q, todo[0]);
        AddGroupsExtends(j, user, todo[1..]);
        if j.err.Some? {
          assert AddGroups(p, user, todo) == j;
        } else {
          assert AddGroups(p, user, todo) == AddGroups(j, user, todo[1..]);
        }
      }
    }
  }

  // ---------------------------------------------------------------------------
  // The bootstrap stages together

  /** The bootstrap stages keep the invariant, only extend the trace, and
      neither join groups nor change the recorded groups. */
  lemma BootstrapKeeps(p: Pass, user: string, start: AwsAccountStatus)
    requires Inv(p, start) && p.err.None?
    ensures var b := Bootstrap(p, user);
      Inv(b, start) && p.events <= b.events && b.stored.userGroups == p.stored.userGroups &&
      GroupCalls(b.events) == GroupCalls(p.events)
  {
    CreateUserStageKeeps(p, user, start);
    var p1 := CreateUserStage(p, user);
    if p1.err.None? {
      LoginProfileStageKeeps(p1, user, start);
      var p2 := LoginProfileStage(p1, user);
      if p2.err.None? {
        AccessKeyStageKeeps(p2, user, start);
      }
    }
  }

  /** Bootstrap stages that end without error leave the account `Created`, or
      in a state the stages do not handle, with everything persisted and the
      groups untouched. */
  lemma BootstrapFinishes(p: Pass, user: string)
    requires p.err.None? && p.local == p.stored
    ensures var b := Bootstrap(p, user);
      b.err.None? ==>
        (b.local.account == Created || b.local.account == Other) &&
        b.local == b.stored && b.stored.userGroups == p.stored.userGroups
  {
  }

  /** The bootstrap stages only append to the trace. */
  lemma BootstrapExtends(p: Pass, user: string)
    requires p.err.None?
    ensures p.events <= Bootstrap(p, user).events
  {
    StagesExtend(p, user);
    var p1 := CreateUserStage(p, user);
    if p1.err.None? {
      StagesExtend(p1, user);
      var p2 := LoginProfileStage(p1, user);
      if p2.err.None? {
        StagesExtend(p2, user);
      }
    }
  }

  /** When the bootstrap stages end in a failed write, the call before it is
      the side effect of the stage the persisted state still names. */
  lemma BootstrapWriteFailed(p: Pass, user: string)
    requires p.err.None? && p.local == p.stored
    ensures var b := Bootstrap(p, user);
      b.err.Some? && b.err.value.UpdateStatus? ==>
        |b.events| >= 2 &&
        var c := b.events[|b.events| - 2].call;
        (c == CreateUser(user) || c == CreateLoginProfile(user, true) || c == CreateAccessKeyPair(user)) &&
        StepsLeft(b.stored.account) > 0 &&
        StageOpening(b.stored.account, user) == (if c.CreateLoginProfile? then PasswordRequest else c)
  {
    var b := Bootstrap(p, user);
    if b.err.Some? && b.err.value.UpdateStatus? {
      var p1 := CreateUserStage(p, user);
      if p1.err.Some? {
        CreateUserStageFailedWrite(p, user);
      } else {
        var p2 := LoginProfileStage(p1, user);
        if p2.err.Some? {
          LoginProfileStageFailedWrite(p1, user);
        } else {
          AccessKeyStageFailedWrite(p2, user);
        }
      }
    }
  }

  /** Bootstrap stages started in an unfinished state open with the first call
      of the stage that state names; the login-profile stage creates the
      profile right after a successful password generation. */
  lemma BootstrapOpens(p: Pass, user: string)
    requires p.err.None? && StepsLeft(p.local.account) > 0
    ensures var b := Bootstrap(p, user);
      var n := |p.events|;
      |b.events| > n && b.events[n].call == StageOpening(p.local.account, user) &&
      (p.local.account == CreatingLoginProfile && b.events[n].ok ==>
         |b.events| > n + 1 && b.events[n + 1].call == CreateLoginProfile(user, true))
  {
    var p1 := CreateUserStage(p, user);
    if p.local.account == CreatingLoginProfile || p.local.account == CreatingAccessKey {
      assert p1 == p;
      if p.local.account == CreatingAccessKey {
        assert LoginProfileStage(p1, user) == p;
      }
    } else {
      if p1.err.None? {
        BootstrapExtends(p1, user);
        assert p1.events[|p.events|].call == CreateUser(user);
        var p2 := LoginProfileStage(p1, user);
        if p2.err.None? {
          StagesExtend(p2, user);
        }
      }
    }
  }

  // ---------------------------------------------------------------------------
  // One whole pass

  /** Every pass keeps the invariant for the status it started from. */
  lemma ReconcileKeepsInvariant(present: bool, spec: AwsAccountSpec, status: AwsAccountStatus, answers: seq<bool>)
    ensures Inv(ReconcilePass(present, spec, status, answers), status)
  {
    var fetched := Ask(Pass(status, status, [], answers, None), Get);
    FetchEstablishes(status, answers);
    if fetched.err.None? && present {
      var user := spec.userName;
      BootstrapKeeps(fetched, user, status);
      var b := Bootstrap(fetched, user);
      if b.err.None? {
        AddGroupsKeeps(b, user, Missing(spec.groups, b.local.userGroups), status);
      }
    }
  }

  /** A pass starts with the fetch, writes a status only right after the
      successful side effect that status records, and creates a login profile
      (with a forced password reset) only right after a successful password
      generation. */
  lemma ReconcileCheckpoints(present: bool, spec: AwsAccountSpec, status: AwsAccountStatus, answers: seq<bool>)
    ensures var p := ReconcilePass(present, spec, status, answers);
      p.events != [] && p.events[0].call == Get &&
      Checkpointed(p.events) && PasswordBeforeProfile(p.events)
  {
    ReconcileKeepsInvariant(present, spec, status, answers);
  }

  /** A pass stops at the first error of any kind and returns it; the persisted
      status is the one of the last successful write, or the old one. */
  lemma ReconcileStopsAtFirstError(present: bool, spec: AwsAccountSpec, status: AwsAccountStatus, answers: seq<bool>)
    ensures var p := ReconcilePass(present, spec, status, answers);
      p.events != [] && (forall i :: 0 <= i < |p.events| - 1 ==> p.events[i].ok) &&
      (p.err.Some? <==> !Last(p.events).ok) &&
      (p.err.Some? ==> p.err.value == Last(p.events).call) &&
      p.stored == LastWritten(p.events, status)
  {
    ReconcileKeepsInvariant(present, spec, status, answers);
  }

  /** The persisted bootstrap state only moves forward. */
  lemma ReconcileMovesForward(present: bool, spec: AwsAccountSpec, status: AwsAccountStatus, answers: seq<bool>)
    ensures Reaches(status.account, ReconcilePass(present, spec, status, answers).stored.account)
  {
    ReconcileKeepsInvariant(present, spec, status, answers);
  }

  /** Over two successive passes the persisted bootstrap state still only moves forward. */
  lemma SuccessivePassesMoveForward(spec: AwsAccountSpec, status: AwsAccountStatus, answers: seq<bool>, answers': seq<bool>)
    ensures var p := ReconcilePass(true, spec, status, answers);
      Reaches(status.account, ReconcilePass(true, spec, p.stored, answers').stored.account)
  {
    var p := ReconcilePass(true, spec, status, answers);
    ReconcileMovesForward(true, spec, status, answers);
    ReconcileMovesForward(true, spec, p.stored, answers');
    ReachesTransitive(status.account, p.stored.account, ReconcilePass(true, spec, p.stored, answers').stored.account);
  }

  /** The persisted groups grow by a prefix of `wanted` (the spec's groups not
      yet recorded), joined in `wanted` order; they never shrink and no group is
      ever left. A pass that ends without error on an existing resource has
      joined them all. */
  lemma ReconcileAppendsGroups(present: bool, spec: AwsAccountSpec, status: AwsAccountStatus, answers: seq<bool>)
    ensures var p := ReconcilePass(present, spec, status, answers);
      var wanted := Missing(spec.groups, status.userGroups);
      var k := |p.stored.userGroups| - |status.userGroups|;
      0 <= k <= |wanted| && p.stored.userGroups == status.userGroups + wanted[..k] &&
      (GroupCalls(p.events) == wanted[..k] ||
       (p.err.Some? && k < |wanted| && GroupCalls(p.events) == wanted[..k + 1])) &&
      NeverRemoves(p.events) &&
      (present && p.err.None? ==> p.stored.userGroups == status.userGroups + wanted)
  {
    ReconcileKeepsInvariant(present, spec, status, answers);
    PassJoinsPrefix(present, spec, status, answers);
  }

  /** The group part of ReconcileAppendsGroups. */
  lemma PassJoinsPrefix(present: bool, spec: AwsAccountSpec, status: AwsAccountStatus, answers: seq<bool>)
    ensures var p := ReconcilePass(present, spec, status, answers);
      var wanted := Missing(spec.groups, status.userGroups);
      var k := |p.stored.userGroups| - |status.userGroups|;
      0 <= k <= |wanted| && p.stored.userGroups == status.userGroups + wanted[..k] &&
      (GroupCalls(p.events) == wanted[..k] ||
       (p.err.Some? && k < |wanted| && GroupCalls(p.events) == wanted[..k + 1])) &&
      (present && p.err.None? ==> p.stored.userGroups == status.userGroups + wanted)
  {
    var p := ReconcilePass(present, spec, status, answers);
    var wanted := Missing(spec.groups, status.userGroups);
    assert status.userGroups + wanted[..0] == status.userGroups;
    var fetched := Ask(Pass(status, status, [], answers, None), Get);
    FetchEstablishes(status, answers);
    if fetched.err.Some? || !present {
      assert p == fetched;
    } else {
      var user := spec.userName;
      BootstrapKeeps(fetched, user, status);
      var b := Bootstrap(fetched, user);
      if b.err.Some? {
        assert p == b;
      } else {
        assert b.local.userGroups == status.userGroups;
        assert p == AddGroups(b, user, wanted);
        AddGroupsJoinsPrefix(b, user, wanted);
        assert GroupCalls(b.events) == [];
        assert wanted[..|wanted|] == wanted;
      }
    }
  }

  /** A pass whose calls all succeed, on an existing resource in any state,
      joins each wanted group exactly once, in order, records them all, and
      leaves no group. */
  lemma ConvergesWhenAllCallsSucceed(spec: AwsAccountSpec, status: AwsAccountStatus)
    ensures var p := ReconcilePass(true, spec, status, []);
      var wanted := Missing(spec.groups, status.userGroups);
      p.err.None? && p.stored.userGroups == status.userGroups + wanted &&
      GroupCalls(p.events) == wanted && NeverRemoves(p.events)
  {
    var user := spec.userName;
    var fetched := Ask(Pass(status, status, [], [], None), Get);
    BootstrapSucceeds(fetched, user);
    BootstrapFinishes(fetched, user);
    var b := Bootstrap(fetched, user);
    AddGroupsSucceeds(b, user, Missing(spec.groups, b.local.userGroups));
    ReconcileAppendsGroups(true, spec, status, []);
  }

  /** With every call answered successfully, the bootstrap stages end without error. */
  lemma BootstrapSucceeds(p: Pass, user: string)
    requires p.err.None? && p.answers == []
    ensures Bootstrap(p, user).err.None? && Bootstrap(p, user).answers == []
  {
  }

  /** A fresh resource (or one left in `CreatingUser`) whose calls all succeed
      gets its user, login profile and access key in one pass, each created
      once, in that order, each followed by its write; after them come only
      group joins and their writes (ReconcileAppendsGroups says which). */
  lemma FreshResourceProvisionedInOnePass(spec: AwsAccountSpec, status: AwsAccountStatus)
    requires status.account == Unset || status.account == CreatingUser
    ensures var p := ReconcilePass(true, spec, status, []);
      var user, groups := spec.userName, status.userGroups;
      p.err.None? && p.stored.account == Created && |p.events| >= 8 &&
      Calls(p.events[..8]) == [
        Get,
        CreateUser(user), UpdateStatus(AwsAccountStatus(CreatingLoginProfile, groups)),
        PasswordRequest, CreateLoginProfile(user, true), UpdateStatus(AwsAccountStatus(CreatingAccessKey, groups)),
        CreateAccessKeyPair(user), UpdateStatus(AwsAccountStatus(Created, groups))] &&
      OnlyGroupWork(p.events, 8) && (forall i :: 0 <= i < |p.events| ==> p.events[i].ok)
  {
    var user := spec.userName;
    var fetched := Ask(Pass(status, status, [], [], None), Get);
    var b := Bootstrap(fetched, user);
    FreshBootstrapCalls(status, user);
    var wanted := Missing(spec.groups, b.local.userGroups);
    var p := AddGroups(b, user, wanted);
    assert ReconcilePass(true, spec, status, []) == p;
    AddGroupsAllSucceed(b, user, wanted);
    assert p.events[..8] == b.events;
  }

  /** The calls of FreshBootstrap, all successful. */
  lemma FreshBootstrapCalls(status: AwsAccountStatus, user: string)
    requires status.account == Unset || status.account == CreatingUser
    ensures var b := Bootstrap(Ask(Pass(status, status, [], [], None), Get), user);
      var groups := status.userGroups;
      b.err.None? && b.answers == [] && b.local == b.stored && b.stored.account == Created && |b.events| == 8 &&
      Calls(b.events) == [
        Get,
        CreateUser(user), UpdateStatus(AwsAccountStatus(CreatingLoginProfile, groups)),
        PasswordRequest, CreateLoginProfile(user, true), UpdateStatus(AwsAccountStatus(CreatingAccessKey, groups)),
        CreateAccessKeyPair(user), UpdateStatus(AwsAccountStatus(Created, groups))] &&
      forall i :: 0 <= i < |b.events| ==> b.events[i].ok
  {
    var b := Bootstrap(Ask(Pass(status, status, [], [], None), Get), user);
    FreshBootstrap(status, user);
    var groups := status.userGroups;
    var expected := [
      Get,
      CreateUser(user), UpdateStatus(AwsAccountStatus(CreatingLoginProfile, groups)),
      PasswordRequest, CreateLoginProfile(user, true), UpdateStatus(AwsAccountStatus(CreatingAccessKey, groups)),
      CreateAccessKeyPair(user), UpdateStatus(AwsAccountStatus(Created, groups))];
    forall i | 0 <= i < 8
      ensures Calls(b.events)[i] == expected[i]
    {
    }
  }

  /** A group loop whose calls all succeed, after a trace of successful calls,
      keeps that trace as its prefix and leaves a trace of successful calls. */
  lemma AddGroupsAllSucceed(b: Pass, user: string, todo: seq<string>)
    requires b.err.None? && b.answers == [] && b.local == b.stored
    requires forall i :: 0 <= i < |b.events| ==> b.events[i].ok
    ensures var r := AddGroups(b, user, todo);
      r.err.None? && |b.events| <= |r.events| && r.events[..|b.events|] == b.events &&
      r.stored.account == b.stored.account &&
      OnlyGroupWork(r.events, |b.events|) && forall i :: 0 <= i < |r.events| ==> r.events[i].ok
  {
    var r := AddGroups(b, user, todo);
    AddGroupsSucceeds(b, user, todo);
    forall i | 0 <= i < |r.events|
      ensures r.events[i].ok
    {
      if i < |b.events| {
        assert r.events[i] == b.events[i];
      }
    }
  }

  /** The bootstrap part of FreshResourceProvisionedInOnePass. */
  lemma FreshBootstrap(status: AwsAccountStatus, user: string)
    requires status.account == Unset || status.account == CreatingUser
    ensures var fetched := Ask(Pass(status, status, [], [], None), Get);
      var groups := status.userGroups;
      var done := AwsAccountStatus(Created, groups);
      Bootstrap(fetched, user) == Pass(done, done, [
        Event(Get, true),
        Event(CreateUser(user), true), Event(UpdateStatus(AwsAccountStatus(CreatingLoginProfile, groups)), true),
        Event(PasswordRequest, true), Event(CreateLoginProfile(user, true), true),
        Event(UpdateStatus(AwsAccountStatus(CreatingAccessKey, groups)), true),
        Event(CreateAccessKeyPair(user), true), Event(UpdateStatus(done), true)], [], None)
  {
    var groups := status.userGroups;
    var fetched := Ask(Pass(status, status, [], [], None), Get);
    var p1 := CreateUserStage(fetched, user);
    var s1 := AwsAccountStatus(CreatingLoginProfile, groups);
    assert p1 == Pass(s1, s1, fetched.events + [Event(CreateUser(user), true), Event(UpdateStatus(s1), true)], [], None);
    var p2 := LoginProfileStage(p1, user);
    var s2 := AwsAccountStatus(CreatingAccessKey, groups);
    assert p2 == Pass(s2, s2, p1.events + [Event(PasswordRequest, true), Event(CreateLoginProfile(user, true), true), Event(UpdateStatus(s2), true)], [], None);
  }

  /** A resource whose bootstrap is over and whose spec groups are all recorded
      is left alone: the fetch is the only call, and nothing is written. */
  lemma SteadyStateIsNoOp(present: bool, spec: AwsAccountSpec, status: AwsAccountStatus, answers: seq<bool>)
    requires status.account == Created || status.account == Other
    requires forall g :: g in spec.groups ==> g in status.userGroups
    ensures var p := ReconcilePass(present, spec, status, answers);
      p.events == [Event(Get, Answer(answers))] && p.stored == status &&
      p.err == (if Answer(answers) then None else Some(Get))
  {
    MissingEmpty(spec.groups, status.userGroups);
  }

  /** A failed or NotFound fetch ends the pass before any other call; only
      the failure is an error. */
  lemma FailedFetchChangesNothing(present: bool, spec: AwsAccountSpec, status: AwsAccountStatus, answers: seq<bool>)
    requires !Answer(answers) || !present
    ensures var p := ReconcilePass(present, spec, status, answers);
      p.events == [Event(Get, Answer(answers))] && p.stored == status &&
      p.err == (if Answer(answers) then None else Some(Get))
  {
  }

  // ---------------------------------------------------------------------------
  // Resuming after a failed write

  /** The first bootstrap call of the stage that state `a` is in. */
  function StageOpening(a: AccountState, user: string): Call
  {
    match a
    case Unset => CreateUser(user)
    case CreatingUser => CreateUser(user)
    case CreatingLoginProfile => PasswordRequest
    case CreatingAccessKey => CreateAccessKeyPair(user)
    case _ => Get
  }

  /** After a successful fetch, a pass whose bootstrap is not over opens with
      the stage its persisted state names, and the login-profile stage calls
      CreateLoginProfile right after a successful password generation. */
  lemma PassOpensWithStage(spec: AwsAccountSpec, status: AwsAccountStatus, answers: seq<bool>)
    requires Answer(answers) && StepsLeft(status.account) > 0
    ensures var q := ReconcilePass(true, spec, status, answers);
      |q.events| >= 2 && q.events[1].call == StageOpening(status.account, spec.userName) &&
      (status.account == CreatingLoginProfile && q.events[1].ok ==>
         |q.events| >= 3 && q.events[2].call == CreateLoginProfile(spec.userName, true))
  {
    var user := spec.userName;
    var fetched := Ask(Pass(status, status, [], answers, None), Get);
    var b := Bootstrap(fetched, user);
    BootstrapOpens(fetched, user);
    if b.err.None? {
      AddGroupsExtends(b, user, Missing(spec.groups, b.local.userGroups));
    }
  }

  /** If the write after a successful bootstrap call fails, the next pass
      (whose fetch succeeds) opens by repeating that stage: the same call, or,
      for the login profile, a new password and then the same call. */
  lemma CrashDuringBootstrapRepeatsStage(spec: AwsAccountSpec, status: AwsAccountStatus, answers: seq<bool>, answers': seq<bool>)
    requires var p := ReconcilePass(true, spec, status, answers);
      |p.events| >= 2 && p.err.Some? && p.err.value.UpdateStatus? &&
      var c := p.events[|p.events| - 2].call;
      c.CreateUser? || c.CreateLoginProfile? || c.CreateAccessKeyPair?
    requires Answer(answers')
    ensures var p := ReconcilePass(true, spec, status, answers);
      var c := p.events[|p.events| - 2].call;
      var q := ReconcilePass(true, spec, p.stored, answers');
      |q.events| >= 2 && q.events[1].call == (if c.CreateLoginProfile? then PasswordRequest else c) &&
      (c.CreateLoginProfile? && q.events[1].ok ==> |q.events| >= 3 && q.events[2].call == c)
  {
    var p := ReconcilePass(true, spec, status, answers);
    BootstrapWriteFailedAt(spec, status, answers);
    PassOpensWithStage(spec, p.stored, answers');
  }

  /** A failed write after a bootstrap call leaves the persisted state in the
      stage that made the call. */
  lemma BootstrapWriteFailedAt(spec: AwsAccountSpec, status: AwsAccountStatus, answers: seq<bool>)
    requires var p := ReconcilePass(true, spec, status, answers);
      |p.events| >= 2 && p.err.Some? && p.err.value.UpdateStatus? &&
      var c := p.events[|p.events| - 2].call;
      c.CreateUser? || c.CreateLoginProfile? || c.CreateAccessKeyPair?
    ensures var p := ReconcilePass(true, spec, status, answers);
      var c := p.events[|p.events| - 2].call;
      StepsLeft(p.stored.account) > 0 &&
      StageOpening(p.stored.account, spec.userName) == (if c.CreateLoginProfile? then PasswordRequest else c) &&
      (c.CreateLoginProfile? ==> c == CreateLoginProfile(spec.userName, true))
  {
    var user := spec.userName;
    var fetched := Ask(Pass(status, status, [], answers, None), Get);
    var b := Bootstrap(fetched, user);
    AddGroupsExtends(b, user, Missing(spec.groups, b.local.userGroups));
    BootstrapWriteFailed(fetched, user);
  }

  /** A failed write in the user stage leaves the persisted status as it was, after a CreateUser call. */
  lemma CreateUserStageFailedWrite(p: Pass, user: string)
    requires p.err.None? && p.local == p.stored
    requires var q := CreateUserStage(p, user); q.err.Some? && q.err.value.UpdateStatus?
    ensures var q := CreateUserStage(p, user);
      q.stored == p.stored && (p.stored.account == Unset || p.stored.account == CreatingUser) &&
      |q.events| >= 2 && q.events[|q.events| - 2].call == CreateUser(user)
  {
  }

  /** A failed write in the login-profile stage leaves the persisted status as it was, after a CreateLoginProfile call. */
  lemma LoginProfileStageFailedWrite(p: Pass, user: string)
    requires p.err.None? && p.local == p.stored
    requires var q := LoginProfileStage(p, user); q.err.Some? && q.err.value.UpdateStatus?
    ensures var q := LoginProfileStage(p, user);
      q.stored == p.stored && p.stored.account == CreatingLoginProfile &&
      |q.events| >= 2 && q.events[|q.events| - 2].call == CreateLoginProfile(user, true)
  {
  }

  /** A failed write in the access-key stage leaves the persisted status as it was, after a CreateAccessKeyPair call. */
  lemma AccessKeyStageFailedWrite(p: Pass, user: string)
    requires p.err.None? && p.local == p.stored
    requires var q := AccessKeyStage(p, user); q.err.Some? && q.err.value.UpdateStatus?
    ensures var q := AccessKeyStage(p, user);
      q.stored == p.stored && p.stored.account == CreatingAccessKey &&
      |q.events| >= 2 && q.events[|q.events| - 2].call == CreateAccessKeyPair(user)
  {
  }

  /** After a successful fetch, a pass whose bootstrap is over opens by joining
      the first group of the spec not yet recorded. */
  lemma PassOpensWithJoin(spec: AwsAccountSpec, status: AwsAccountStatus, answers: seq<bool>)
    requires Answer(answers) && (status.account == Created || status.account == Other)
    requires Missing(spec.groups, status.userGroups) != []
    ensures var q := ReconcilePass(true, spec, status, answers);
      |q.events| >= 2 && q.events[1].call == AddUserToGroup(Missing(spec.groups, status.userGroups)[0], spec.userName)
  {
    var user := spec.userName;
    var wanted := Missing(spec.groups, status.userGroups);
    var fetched := Ask(Pass(status, status, [], answers, None), Get);
    assert Bootstrap(fetched, user) == fetched;
    assert ReconcilePass(true, spec, status, answers) == AddGroups(fetched, user, wanted);
    var q1 := Ask(fetched, AddUserToGroup(wanted[0], user));
    if q1.err.None? {
      var j := Join(q1, wanted[0]);
      AddGroupsExtends(j, user, wanted[1..]);
    }
  }

  /** A failed write after a group join leaves the persisted groups extended by
      the groups of `wanted` before the one just joined. */
  lemma GroupWriteFailedAt(spec: AwsAccountSpec, status: AwsAccountStatus, answers: seq<bool>)
    requires var p := ReconcilePass(true, spec, status, answers);
      |p.events| >= 2 && p.err.Some? && p.err.value.UpdateStatus? && p.events[|p.events| - 2].call.AddUserToGroup?
    ensures var p := ReconcilePass(true, spec, status, answers);
      var wanted := Missing(spec.groups, status.userGroups);
      var k := |p.stored.userGroups| - |status.userGroups|;
      0 <= k < |wanted| && p.stored.userGroups == status.userGroups + wanted[..k] &&
      wanted[k] == p.events[|p.events| - 2].call.group &&
      (p.stored.account == Created || p.stored.account == Other)
  {
    var user := spec.userName;
    JoinFollowsBootstrap(spec, status, answers);
    var b := Bootstrap(Ask(Pass(status, status, [], answers, None), Get), user);
    JoinWriteFailed(b, user, Missing(spec.groups, status.userGroups));
  }

  /** A pass whose last calls are a join and a failed write got past the
      bootstrap stages, and its group loop started on the old groups. */
  lemma JoinFollowsBootstrap(spec: AwsAccountSpec, status: AwsAccountStatus, answers: seq<bool>)
    requires var p := ReconcilePass(true, spec, status, answers);
      |p.events| >= 2 && p.err.Some? && p.err.value.UpdateStatus? && p.events[|p.events| - 2].call.AddUserToGroup?
    ensures Answer(answers) &&
      var b := Bootstrap(Ask(Pass(status, status, [], answers, None), Get), spec.userName);
      b.err.None? && b.local == b.stored && b.stored.userGroups == status.userGroups &&
      (b.stored.account == Created || b.stored.account == Other) &&
      ReconcilePass(true, spec, status, answers) == AddGroups(b, spec.userName, Missing(spec.groups, status.userGroups))
  {
    var user := spec.userName;
    var p := ReconcilePass(true, spec, status, answers);
    var fetched := Ask(Pass(status, status, [], answers, None), Get);
    assert fetched.err.None?;
    var b := Bootstrap(fetched, user);
    assert p == if b.err.Some? then b else AddGroups(b, user, Missing(spec.groups, b.local.userGroups));
    BootstrapWriteFailed(fetched, user);
    assert b.err.None?;
    BootstrapFinishes(fetched, user);
  }

  /** The group loop, when it stops at a failed write right after a join: the
      groups of `todo` before the one joined were persisted, that one was not. */
  lemma JoinWriteFailed(p: Pass, user: string, todo: seq<string>)
    requires p.err.None? && p.local == p.stored
    requires var r := AddGroups(p, user, todo);
      |r.events| >= 2 && r.err.Some? && r.err.value.UpdateStatus? && r.events[|r.events| - 2].call.AddUserToGroup?
    ensures var r := AddGroups(p, user, todo);
      var k := |r.stored.userGroups| - |p.stored.userGroups|;
      0 <= k < |todo| && r.stored.userGroups == p.stored.userGroups + todo[..k] &&
      GroupCalls(r.events) == GroupCalls(p.events) + todo[..k + 1] &&
      todo[k] == r.events[|r.events| - 2].call.group && r.stored.account == p.stored.account
  {
    var r := AddGroups(p, user, todo);
    AddGroupsExtends(p, user, todo);
    AddGroupsJoinsPrefix(p, user, todo);
    AddGroupsKeepsState(p, user, todo);
    GroupCallsEndWithJoin(r.events);
    var k := |r.stored.userGroups| - |p.stored.userGroups|;
    var calls := GroupCalls(r.events);
    assert Last(calls) == todo[..k + 1][k];
  }

  /** A trace ending in a group join and a status write has that group as the
      last of its group calls. */
  lemma GroupCallsEndWithJoin(events: seq<Event>)
    requires |events| >= 2 && Last(events).call.UpdateStatus? && events[|events| - 2].call.AddUserToGroup?
    ensures var calls := GroupCalls(events); calls != [] && Last(calls) == events[|events| - 2].call.group
  {
    var n := |events|;
    var init := events[..n - 1];
    assert GroupCalls(events) == GroupCalls(init);
    assert init[..n - 2] == events[..n - 2] && Last(init) == events[n - 2];
  }

  /** The group loop leaves the bootstrap state alone. */
  lemma {:induction false} AddGroupsKeepsState(p: Pass, user: string, todo: seq<string>)
    requires p.err.None? && p.local == p.stored
    ensures AddGroups(p, user, todo).stored.account == p.stored.account
    decreases |todo|
  {
    if todo != [] {
      var q := Ask(p, AddUserToGroup(todo[0], user));
      if q.err.None? {
        var j := Join(q, todo[0]);
        if j.err.None? {
          AddGroupsKeepsState(j, user, todo[1..]);
        }
      }
    }
  }

  /** If the write after a successful group join fails, the next pass (whose
      fetch succeeds) opens by joining that same group again, when the spec
      lists no group twice. */
  lemma CrashDuringGroupsRepeatsJoin(spec: AwsAccountSpec, status: AwsAccountStatus, answers: seq<bool>, answers': seq<bool>)
    requires Distinct(spec.groups)
    requires var p := ReconcilePass(true, spec, status, answers);
      |p.events| >= 2 && p.err.Some? && p.err.value.UpdateStatus? && p.events[|p.events| - 2].call.AddUserToGroup?
    requires Answer(answers')
    ensures var p := ReconcilePass(true, spec, status, answers);
      var q := ReconcilePass(true, spec, p.stored, answers');
      |q.events| >= 2 && q.events[1].call == AddUserToGroup(p.events[|p.events| - 2].call.group, spec.userName)
  {
    var p := ReconcilePass(true, spec, status, answers);
    var wanted := Missing(spec.groups, status.userGroups);
    GroupWriteFailedAt(spec, status, answers);
    var k := |p.stored.userGroups| - |status.userGroups|;
    MissingTwice(spec.groups, status.userGroups, wanted[..k]);
    MissingDistinct(spec.groups, status.userGroups);
    MissingOwnPrefix(wanted, k);
    assert Missing(spec.groups, p.stored.userGroups) == wanted[k..];
    PassOpensWithJoin(spec, p.stored, answers');
  }

  // ---------------------------------------------------------------------------
  // Each bootstrap call at most once

  /** The side effects of the bootstrap stages: user, password, login profile, access key. */
  predicate IsBootstrapCall(c: Call)
  {
    c.CreateUser? || c.GeneratePassword? || c.CreateLoginProfile? || c.CreateAccessKeyPair?
  }

  /** The bootstrap side effects still to be made from stored state `a`, in stage order. */
  function BootstrapScript(a: AccountState, user: string): seq<Call>
  {
    match a
    case Unset => [CreateUser(user), PasswordRequest, CreateLoginProfile(user, true), CreateAccessKeyPair(user)]
    case CreatingUser => [CreateUser(user), PasswordRequest, CreateLoginProfile(user, true), CreateAccessKeyPair(user)]
    case CreatingLoginProfile => [PasswordRequest, CreateLoginProfile(user, true), CreateAccessKeyPair(user)]
    case CreatingAccessKey => [CreateAccessKeyPair(user)]
    case _ => []
  }

  /** The bootstrap side effects of a trace, in call order, whether they succeeded or not. */
  function BootstrapCalls(events: seq<Event>): seq<Call>
  {
    if events == [] then []
    else BootstrapCalls(events[..|events| - 1]) + (if IsBootstrapCall(Last(events).call) then [Last(events).call] else [])
  }

  /** The bootstrap side effects made so far, followed by the script of the
      in-memory state, are the script of the state the pass started from; once
      the pass has failed, they are a prefix of it. */
  predicate FollowsScript(p: Pass, start: AccountState, user: string)
  {
    if p.err.None? then BootstrapCalls(p.events) + BootstrapScript(p.local.account, user) == BootstrapScript(start, user)
    else BootstrapCalls(p.events) <= BootstrapScript(start, user)
  }

  lemma BootstrapCallsSnoc(events: seq<Event>, e: Event)
    ensures BootstrapCalls(events + [e]) == BootstrapCalls(events) + (if IsBootstrapCall(e.call) then [e.call] else [])
  {
    assert (events + [e])[..|events|] == events;
  }

  /** Writing the status makes no bootstrap side effect and keeps the in-memory status. */
  lemma PersistMakesNoBootstrapCall(p: Pass)
    requires p.err.None?
    ensures BootstrapCalls(Persist(p).events) == BootstrapCalls(p.events) && Persist(p).local == p.local
  {
    BootstrapCallsSnoc(p.events, Last(Persist(p).events));
  }

  /** A side effect that is next in the script: on failure the calls stay a prefix of it. */
  lemma AskFollowsScript(p: Pass, c: Call, rest: seq<Call>, start: AccountState, user: string)
    requires p.err.None? && BootstrapCalls(p.events) + ([c] + rest) == BootstrapScript(start, user) && IsBootstrapCall(c)
    ensures var q := Ask(p, c);
      BootstrapCalls(q.events) == BootstrapCalls(p.events) + [c] && BootstrapCalls(q.events) + rest == BootstrapScript(start, user) &&
      BootstrapCalls(q.events) <= BootstrapScript(start, user)
  {
    var q := Ask(p, c);
    BootstrapCallsSnoc(p.events, Last(q.events));
    AppendAssoc(BootstrapCalls(p.events), [c], rest);
  }

  lemma CreateUserStageFollowsScript(p: Pass, user: string, start: AccountState)
    requires p.err.None? && FollowsScript(p, start, user)
    ensures FollowsScript(CreateUserStage(p, user), start, user)
  {
    var a := p.local.account;
    if a == CreatingUser || a == Unset {
      var c := CreateUser(user);
      assert BootstrapScript(a, user) == [c] + BootstrapScript(CreatingLoginProfile, user);
      AskFollowsScript(p, c, BootstrapScript(CreatingLoginProfile, user), start, user);
      var q := Ask(p, c);
      if q.err.None? {
        PersistMakesNoBootstrapCall(q.(local := q.local.(account := CreatingLoginProfile)));
      }
    }
  }

  lemma LoginProfileStageFollowsScript(p: Pass, user: string, start: AccountState)
    requires p.err.None? && FollowsScript(p, start, user)
    ensures FollowsScript(LoginProfileStage(p, user), start, user)
  {
    if p.local.account == CreatingLoginProfile {
      var c, c' := PasswordRequest, CreateLoginProfile(user, true);
      var rest := BootstrapScript(CreatingAccessKey, user);
      assert BootstrapScript(CreatingLoginProfile, user) == [c] + ([c'] + rest);
      AskFollowsScript(p, c, [c'] + rest, start, user);
      var q := Ask(p, c);
      if q.err.None? {
        AskFollowsScript(q, c', rest, start, user);
        var q' := Ask(q, c');
        if q'.err.None? {
          PersistMakesNoBootstrapCall(q'.(local := q'.local.(account := CreatingAccessKey)));
        }
      }
    }
  }

  lemma AccessKeyStageFollowsScript(p: Pass, user: string, start: AccountState)
    requires p.err.None? && FollowsScript(p, start, user)
    ensures FollowsScript(AccessKeyStage(p, user), start, user)
  {
    if p.local.account == CreatingAccessKey {
      var c := CreateAccessKeyPair(user);
      assert BootstrapScript(CreatingAccessKey, user) == [c] + BootstrapScript(Created, user);
      AskFollowsScript(p, c, BootstrapScript(Created, user), start, user);
      var q := Ask(p, c);
      if q.err.None? {
        PersistMakesNoBootstrapCall(q.(local := q.local.(account := Created)));
      }
    }
  }

  lemma BootstrapFollowsScript(p: Pass, user: string, start: AccountState)
    requires p.err.None? && FollowsScript(p, start, user)
    ensures FollowsScript(Bootstrap(p, user), start, user)
  {
    CreateUserStageFollowsScript(p, user, start);
    var p1 := CreateUserStage(p, user);
    if p1.err.None? {
      LoginProfileStageFollowsScript(p1, user, start);
      var p2 := LoginProfileStage(p1, user);
      if p2.err.None? {
        AccessKeyStageFollowsScript(p2, user, start);
      }
    }
  }

  /** The group loop makes no bootstrap side effect. */
  lemma {:induction false} AddGroupsMakesNoBootstrapCall(p: Pass, user: string, todo: seq<string>)
    ensures BootstrapCalls(AddGroups(p, user, todo).events) == BootstrapCalls(p.events)
    decreases |todo|
  {
    if p.err.None? && todo != [] {
      var q := Ask(p, AddUserToGroup(todo[0], user));
      BootstrapCallsSnoc(p.events, Last(q.events));
      if q.err.None? {
        PersistMakesNoBootstrapCall(q.(local := q.local.(userGroups := q.local.userGroups + [todo[0]])));
        AddGroupsMakesNoBootstrapCall(Join(q, todo[0]), user, todo[1..]);
      }
    }
  }

  /** The bootstrap side effects of any pass are a prefix of the script of
      the stored state it started from. */
  lemma PassFollowsScript(present: bool, spec: AwsAccountSpec, status: AwsAccountStatus, answers: seq<bool>)
    ensures BootstrapCalls(ReconcilePass(present, spec, status, answers).events) <= BootstrapScript(status.account, spec.userName)
  {
    var user := spec.userName;
    var p := ReconcilePass(present, spec, status, answers);
    var fetched := Ask(Pass(status, status, [], answers, None), Get);
    BootstrapCallsSnoc([], Last(fetched.events));
    assert BootstrapCalls(fetched.events) == [];
    if fetched.err.Some? || !present {
      assert p == fetched;
    } else {
      assert FollowsScript(fetched, status.account, user);
      BootstrapFollowsScript(fetched, user, status.account);
      var b := Bootstrap(fetched, user);
      if b.err.Some? {
        assert p == b;
      } else {
        var wanted := Missing(spec.groups, b.local.userGroups);
        assert p == AddGroups(b, user, wanted);
        AddGroupsMakesNoBootstrapCall(b, user, wanted);
        assert BootstrapCalls(b.events) + BootstrapScript(b.local.account, user) == BootstrapScript(status.account, user);
      }
    }
  }

  /** A bootstrap side effect occurs in the calls of a trace as often as in its bootstrap calls. */
  lemma {:induction false} BootstrapCallsCount(events: seq<Event>, c: Call)
    requires IsBootstrapCall(c)
    ensures multiset(Calls(events))[c] == multiset(BootstrapCalls(events))[c]
  {
    if events != [] {
      var init, e := events[..|events| - 1], Last(events);
      BootstrapCallsCount(init, c);
      assert events == init + [e];
      assert Calls(events) == Calls(init) + [e.call];
      BootstrapCallsSnoc(init, e);
    }
  }

  /** A value occurs at most once in a sequence without duplicates. */
  lemma {:induction false} DistinctCount<T>(s: seq<T>, x: T)
    requires Distinct(s)
    ensures multiset(s)[x] <= 1
  {
    if s != [] {
      var init, last := s[..|s| - 1], s[|s| - 1];
      assert s == init + [last];
      assert Distinct(init);
      DistinctCount(init, x);
      if last == x {
        assert x !in init;
      }
    }
  }

  /** A prefix has no more occurrences of a value than the whole sequence. */
  lemma PrefixCount<T>(s: seq<T>, t: seq<T>, x: T)
    requires s <= t
    ensures multiset(s)[x] <= multiset(t)[x]
  {
    assert t == s + t[|s|..];
  }

  /** The script has no duplicates. */
  lemma BootstrapScriptDistinct(a: AccountState, user: string)
    ensures Distinct(BootstrapScript(a, user))
  {
  }

  /** A trace whose bootstrap calls are a prefix of a script without
      duplicates makes each of them at most once, and no other. */
  lemma ScriptBoundsCalls(events: seq<Event>, script: seq<Call>)
    requires BootstrapCalls(events) <= script && Distinct(script)
    ensures forall c :: IsBootstrapCall(c) ==>
      multiset(Calls(events))[c] <= 1 && (c in Calls(events) ==> c in script)
  {
    forall c | IsBootstrapCall(c)
      ensures multiset(Calls(events))[c] <= 1 && (c in Calls(events) ==> c in script)
    {
      BootstrapCallsCount(events, c);
      PrefixCount(BootstrapCalls(events), script, c);
      DistinctCount(script, c);
    }
  }

  /** Each bootstrap side effect is made at most once in a pass, and only if
      the script of the stored state still holds it: with the user's name, and
      never for a stage the stored status is already past. */
  lemma BootstrapCallsAtMostOnce(present: bool, spec: AwsAccountSpec, status: AwsAccountStatus, answers: seq<bool>)
    ensures var calls := Calls(ReconcilePass(present, spec, status, answers).events);
      forall c :: IsBootstrapCall(c) ==>
        multiset(calls)[c] <= 1 && (c in calls ==> c in BootstrapScript(status.account, spec.userName))
  {
    PassFollowsScript(present, spec, status, answers);
    BootstrapScriptDistinct(status.account, spec.userName);
    ScriptBoundsCalls(ReconcilePass(present, spec, status, answers).events, BootstrapScript(status.account, spec.userName));
  }

  /** A stage the stored status is already past is not run again: its side
      effects do not occur in the pass. */
  lemma PersistedStagesSkipped(present: bool, spec: AwsAccountSpec, status: AwsAccountStatus, answers: seq<bool>)
    ensures var calls, user, left := Calls(ReconcilePass(present, spec, status, answers).events), spec.userName, StepsLeft(status.account);
      (left < 3 ==> CreateUser(user) !in calls) &&
      (left < 2 ==> PasswordRequest !in calls && CreateLoginProfile(user, true) !in calls) &&
      (left < 1 ==> CreateAccessKeyPair(user) !in calls)
  {
    var user := spec.userName;
    BootstrapCallsAtMostOnce(present, spec, status, answers);
    assert IsBootstrapCall(CreateUser(user)) && IsBootstrapCall(PasswordRequest);
    assert IsBootstrapCall(CreateLoginProfile(user, true)) && IsBootstrapCall(CreateAccessKeyPair(user));
  }

  /** A retried pass does not repeat a persisted step: a side effect of one
      pass that the stored state's script no longer holds is not made by the
      next pass, which starts from that stored status. */
  lemma RetryDoesNotRepeatPersistedSteps(present: bool, present': bool, spec: AwsAccountSpec, status: AwsAccountStatus,
                                         answers: seq<bool>, answers': seq<bool>)
    ensures var p := ReconcilePass(present, spec, status, answers);
      var q := ReconcilePass(present', spec, p.stored, answers');
      forall c :: IsBootstrapCall(c) && c in Calls(p.events) && c !in BootstrapScript(p.stored.account, spec.userName) ==>
        c !in Calls(q.events)
  {
    var p := ReconcilePass(present, spec, status, answers);
    BootstrapCallsAtMostOnce(present', spec, p.stored, answers');
  }
}
