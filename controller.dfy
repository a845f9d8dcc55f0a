// The AwsAccount reconciler: one pass that loads the resource, walks the
// bootstrap state machine (user, login profile, access key) and then joins the
// groups the spec asks for, persisting the status after every step.
//
// The Kubernetes client, the IAM wrapper and the password generator are
// outside this model. Each call to them is recorded as an `Event`, and whether
// it succeeds is read from an oracle: a sequence of answers consumed one per
// call, every call succeeding once the sequence is exhausted.

module AwsAccountController {
  import opened Difference

  datatype Option<T> = None | Some(value: T)

  /** The values of `Status.Account` the reconciler tests for. `Unset` is the
      empty string of a fresh resource; `Other` stands for every other string,
      for which all bootstrap steps are skipped. */
  datatype AccountState =
    | Unset
    | CreatingUser
    | CreatingLoginProfile
    | CreatingAccessKey
    | Created
    | Other

  /** What the user declares: the IAM user name and the groups it should be in. */
  datatype AwsAccountSpec = AwsAccountSpec(userName: string, groups: seq<string>)

  /** What the reconciler records: the bootstrap state and the groups it has joined, in joining order. */
  datatype AwsAccountStatus = AwsAccountStatus(account: AccountState, userGroups: seq<string>)

  /** A call to a collaborator: the resource store (`Get`, `UpdateStatus`),
      the password generator, or the IAM wrapper. */
  datatype Call =
    | Get
    | UpdateStatus(status: AwsAccountStatus)
    | GeneratePassword(length: nat, numDigits: nat, numSymbols: nat, noUpper: bool, allowRepeat: bool)
    | CreateUser(userName: string)
    | CreateLoginProfile(userName: string, passwordResetRequired: bool)
    | CreateAccessKeyPair(userName: string)
    | AddUserToGroup(group: string, userName: string)
    | RemoveUserFromGroup(group: string, userName: string)

  /** A call that was made, and whether it returned without error. */
  datatype Event = Event(call: Call, ok: bool)

  /** The password request: 20 characters, 3 digits, 3 symbols, upper case allowed, repeats allowed. */
  const PasswordRequest: Call := GeneratePassword(20, 3, 3, false, true)

  /** The oracle's answer to the next call. */
  function Answer(answers: seq<bool>): bool
  {
    answers == [] || answers[0]
  }

  /** The oracle once the next call has been answered. */
  function Remaining(answers: seq<bool>): seq<bool>
  {
    if answers == [] then [] else answers[1..]
  }

  /** A pass in progress: the persisted status, the in-memory status, the calls
      made so far, the oracle's remaining answers, and the error that ended the
      pass, if any. */
  datatype Pass = Pass(
    stored: AwsAccountStatus,
    local: AwsAccountStatus,
    events: seq<Event>,
    answers: seq<bool>,
    err: Option<Call>)

  /** Makes call `c`; a failure ends the pass with `c` as its error. */
  function Ask(p: Pass, c: Call): Pass
    requires p.err.None?
  {
    var ok := Answer(p.answers);
    p.(events := p.events + [Event(c, ok)], answers := Remaining(p.answers), err := if ok then None else Some(c))
  }

  /** Writes the in-memory status to the store; only a successful write changes the persisted status. */
  function Persist(p: Pass): Pass
    requires p.err.None?
  {
    var q := Ask(p, UpdateStatus(p.local));
    if q.err.None? then q.(stored := q.local) else q
  }

  /** Sets the in-memory bootstrap state, then persists. */
  function Advance(p: Pass, next: AccountState): Pass
    requires p.err.None?
  {
    Persist(p.(local := p.local.(account := next)))
  }

  /** Appends a group to the in-memory list of joined groups, then persists. */
  function Join(p: Pass, group: string): Pass
    requires p.err.None?
  {
    Persist(p.(local := p.local.(userGroups := p.local.userGroups + [group])))
  }

  /** `""` or `CreatingUser`: create the IAM user, then record `CreatingLoginProfile`. */
  function CreateUserStage(p: Pass, user: string): Pass
    requires p.err.None?
  {
    if p.local.account == CreatingUser || p.local.account == Unset then
      var q := Ask(p, CreateUser(user));
      if q.err.Some? then q else Advance(q, CreatingLoginProfile)
    else p
  }

  /** `CreatingLoginProfile`: generate a password, create a login profile that
      must be changed at first sign-in, then record `CreatingAccessKey`. */
  function LoginProfileStage(p: Pass, user: string): Pass
    requires p.err.None?
  {
    if p.local.account == CreatingLoginProfile then
      var q := Ask(p, PasswordRequest);
      if q.err.Some? then q
      else
        var q' := Ask(q, CreateLoginProfile(user, true));
        if q'.err.Some? then q' else Advance(q', CreatingAccessKey)
    else p
  }

  /** `CreatingAccessKey`: create an access key pair, then record `Created`. */
  function AccessKeyStage(p: Pass, user: string): Pass
    requires p.err.None?
  {
    if p.local.account == CreatingAccessKey then
      var q := Ask(p, CreateAccessKeyPair(user));
      if q.err.Some? then q else Advance(q, Created)
    else p
  }

  /** Joins the groups of `todo` in order, persisting after each one, up to the first failure. */
  function AddGroups(p: Pass, user: string, todo: seq<string>): Pass
    decreases |todo|
  {
    if p.err.Some? || todo == [] then p
    else
      var q := Ask(p, AddUserToGroup(todo[0], user));
      if q.err.Some? then q else AddGroups(Join(q, todo[0]), user, todo[1..])
  }

  /** The three bootstrap stages in order, stopping at the first error. */
  function Bootstrap(p: Pass, user: string): Pass
    requires p.err.None?
  {
    var p1 := CreateUserStage(p, user);
    if p1.err.Some? then p1
    else
      var p2 := LoginProfileStage(p1, user);
      if p2.err.Some? then p2 else AccessKeyStage(p2, user)
  }

  /** One reconcile pass over a resource whose persisted status is `status`;
      `present` is false when the store answers the fetch with NotFound. */
  function ReconcilePass(present: bool, spec: AwsAccountSpec, status: AwsAccountStatus, answers: seq<bool>): Pass
  {
    var fetched := Ask(Pass(status, status, [], answers, None), Get);
    if fetched.err.Some? || !present then fetched
    else
      var b := Bootstrap(fetched, spec.userName);
      if b.err.Some? then b
      else AddGroups(b, spec.userName, Missing(spec.groups, b.local.userGroups))
  }

  /** The reconciler with the world it acts on: the resource in the store, the
      in-memory copy it works on, the calls made so far and the oracle. */
  class AwsAccountReconciler {
    /** Whether the resource exists in the store (a fetch of a missing one answers NotFound). */
    var present: bool
    var spec: AwsAccountSpec
    /** The status as last written to the store. */
    var stored: AwsAccountStatus
    /** The status of the in-memory copy, changed before each write. */
    var local: AwsAccountStatus
    /** Every call made so far, in order, with its outcome. */
    var trace: seq<Event>
    /** The outcomes of the calls still to come. */
    var answers: seq<bool>

    constructor (present: bool, spec: AwsAccountSpec, stored: AwsAccountStatus, answers: seq<bool>)
      ensures this.present == present && this.spec == spec && this.answers == answers
      ensures this.stored == stored && this.local == stored && trace == []
    {
      this.present := present;
      this.spec := spec;
      this.stored := stored;
      this.local := stored;
      this.answers := answers;
      this.trace := [];
    }

    /** Makes call `c` and records it together with the oracle's answer. */
    method Invoke(c: Call) returns (ok: bool)
      modifies this`trace, this`answers
      ensures ok == Answer(old(answers)) && answers == Remaining(old(answers))
      ensures trace == old(trace) + [Event(c, ok)]
    {
      ok := Answer(answers);
      answers := Remaining(answers);
      trace := trace + [Event(c, ok)];
    }

    /** Writes the in-memory status to the store. */
    method PersistStatus() returns (ok: bool)
      modifies this`trace, this`answers, this`stored
      ensures ok == Answer(old(answers)) && answers == Remaining(old(answers))
      ensures trace == old(trace) + [Event(UpdateStatus(local), ok)]
      ensures stored == if ok then local else old(stored)
    {
      ok := Invoke(UpdateStatus(local));
      if ok {
        stored := local;
      }
    }

    /** The fields agree with pass `p`, whose events are what was appended to `trace` after `t0`. */
    ghost predicate Mirrors(p: Pass, t0: seq<Event>)
      reads this
    {
      stored == p.stored && local == p.local && answers == p.answers && trace == t0 + p.events
    }

    /** The `""`/`CreatingUser` block of the pass. */
    method CreateUserStep(ghost p: Pass, ghost t0: seq<Event>) returns (err: Option<Call>)
      requires p.err.None? && Mirrors(p, t0)
      modifies this`stored, this`local, this`trace, this`answers
      ensures var q := CreateUserStage(p, spec.userName); Mirrors(q, t0) && err == q.err
    {
      var user := spec.userName;
      if local.account == CreatingUser || local.account == Unset {
        var ok := Invoke(CreateUser(user));
        if !ok {
          return Some(CreateUser(user));
        }
        local := local.(account := CreatingLoginProfile);
        ok := PersistStatus();
        if !ok {
          return Some(UpdateStatus(local));
        }
      }
      return None;
    }

    /** The `CreatingLoginProfile` block of the pass. */
    method LoginProfileStep(ghost p: Pass, ghost t0: seq<Event>) returns (err: Option<Call>)
      requires p.err.None? && Mirrors(p, t0)
      modifies this`stored, this`local, this`trace, this`answers
      ensures var q := LoginProfileStage(p, spec.userName); Mirrors(q, t0) && err == q.err
    {
      var user := spec.userName;
      if local.account == CreatingLoginProfile {
        var ok := Invoke(PasswordRequest);
        if !ok {
          return Some(PasswordRequest);
        }
        ok := Invoke(CreateLoginProfile(user, true));
        if !ok {
          return Some(CreateLoginProfile(user, true));
        }
        local := local.(account := CreatingAccessKey);
        ok := PersistStatus();
        if !ok {
          return Some(UpdateStatus(local));
        }
      }
      return None;
    }

    /** The `CreatingAccessKey` block of the pass. */
    method AccessKeyStep(ghost p: Pass, ghost t0: seq<Event>) returns (err: Option<Call>)
      requires p.err.None? && Mirrors(p, t0)
      modifies this`stored, this`local, this`trace, this`answers
      ensures var q := AccessKeyStage(p, spec.userName); Mirrors(q, t0) && err == q.err
    {
      var user := spec.userName;
      if local.account == CreatingAccessKey {
        var ok := Invoke(CreateAccessKeyPair(user));
        if !ok {
          return Some(CreateAccessKeyPair(user));
        }
        local := local.(account := Created);
        ok := PersistStatus();
        if !ok {
          return Some(UpdateStatus(local));
        }
      }
      return None;
    }

    /** Adds a joined group to the in-memory status and writes it to the store. */
    method RecordGroup(group: string, ghost p: Pass, ghost t0: seq<Event>) returns (ok: bool)
      requires p.err.None? && Mirrors(p, t0)
      modifies this`stored, this`local, this`trace, this`answers
      ensures var q := Join(p, group); Mirrors(q, t0) && ok == q.err.None?
    {
      local := local.(userGroups := local.userGroups + [group]);
      ok := PersistStatus();
    }

    /** The group loop of the pass: joins the groups of `wanted` in order. */
    method AddGroupsStep(wanted: seq<string>, ghost p: Pass, ghost t0: seq<Event>) returns (err: Option<Call>)
      requires p.err.None? && Mirrors(p, t0)
      modifies this`stored, this`local, this`trace, this`answers
      ensures var q := AddGroups(p, spec.userName, wanted); Mirrors(q, t0) && err == q.err
    {
      var user := spec.userName;
      ghost var cur := p;
      for i := 0 to |wanted|
        invariant cur.err.None? && Mirrors(cur, t0)
        invariant AddGroups(cur, user, wanted[i..]) == AddGroups(p, user, wanted)
      {
        var group := wanted[i];
        assert wanted[i..][0] == group && wanted[i..][1..] == wanted[i + 1..];
        ghost var before := cur;
        var ok := Invoke(AddUserToGroup(group, user));
        cur := Ask(cur, AddUserToGroup(group, user));
        if !ok {
          assert AddGroups(before, user, wanted[i..]) == cur;
          return Some(AddUserToGroup(group, user));
        }
        ok := RecordGroup(group, cur, t0);
        cur := Join(cur, group);
        assert AddGroups(before, user, wanted[i..]) == AddGroups(cur, user, wanted[i + 1..]);
        if !ok {
          return Some(UpdateStatus(local));
        }
      }
      return None;
    }

    /** One reconcile pass; returns the call that failed, or `None` on success. */
    method Reconcile() returns (err: Option<Call>)
      modifies this`stored, this`local, this`trace, this`answers
      ensures var p := ReconcilePass(present, spec, old(stored), old(answers));
        stored == p.stored && local == p.local && answers == p.answers &&
        trace == old(trace) + p.events && err == p.err
    {
      ghost var t0 := trace;
      ghost var p := Ask(Pass(stored, stored, [], answers, None), Get);
      var ok := Invoke(Get);
      local := stored;
      if !ok {
        return Some(Get);
      }
      if !present {
        return None;
      }
      err := CreateUserStep(p, t0);
      p := CreateUserStage(p, spec.userName);
      if err.Some? {
        return;
      }
      err := LoginProfileStep(p, t0);
      p := LoginProfileStage(p, spec.userName);
      if err.Some? {
        return;
      }
      err := AccessKeyStep(p, t0);
      p := AccessKeyStage(p, spec.userName);
      if err.Some? {
        return;
      }
      var wanted, _ := GetDifference(spec.groups, local.userGroups);
      err := AddGroupsStep(wanted, p, t0);
    }
  }
}
