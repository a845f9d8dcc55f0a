// Runs of one reconcile pass on small inputs, each fixing the answers of the
// collaborators. Group names are parameters; a run that depends on two of
// them being different says so.

module AwsAccountScenarios {
  import opened Difference
  import opened AwsAccountController

  /** A bootstrapped resource whose fetch succeeds goes straight to the group loop. */
  lemma BootstrappedPass(spec: AwsAccountSpec, status: AwsAccountStatus, answers: seq<bool>)
    requires Answer(answers) && status.account == Created
    ensures ReconcilePass(true, spec, status, answers) ==
      AddGroups(Pass(status, status, [Event(Get, true)], Remaining(answers), None), spec.userName, Missing(spec.groups, status.userGroups))
  {
    var fetched := Ask(Pass(status, status, [], answers, None), Get);
    assert fetched == Pass(status, status, [Event(Get, true)], Remaining(answers), None);
    assert Bootstrap(fetched, spec.userName) == fetched;
  }

  /** One round of the group loop in which the join and its write both succeed. */
  lemma JoinRound(p: Pass, user: string, todo: seq<string>)
    requires p.err.None? && todo != [] && Answer(p.answers) && Answer(Remaining(p.answers))
    ensures var s := p.local.(userGroups := p.local.userGroups + [todo[0]]);
      var events := p.events + [Event(AddUserToGroup(todo[0], user), true), Event(UpdateStatus(s), true)];
      AddGroups(p, user, todo) == AddGroups(Pass(s, s, events, Remaining(Remaining(p.answers)), None), user, todo[1..])
  {
    var c := AddUserToGroup(todo[0], user);
    var q := Ask(p, c);
    assert q == p.(events := p.events + [Event(c, true)], answers := Remaining(p.answers), err := None);
    var s := p.local.(userGroups := p.local.userGroups + [todo[0]]);
    var w := Ask(q.(local := s), UpdateStatus(s));
    assert w.err.None?;
    assert Join(q, todo[0]) == w.(stored := s);
    assert w.(stored := s) == Pass(s, s, p.events + [Event(c, true), Event(UpdateStatus(s), true)], Remaining(Remaining(p.answers)), None);
  }

  /** Three distinct groups, the first already recorded: only the other two are
      wanted, and only the other two are unwanted the other way round. */
  lemma ThreeGroupsOneRecorded(a: string, b: string, c: string)
    requires b != a && c != a
    ensures Missing([a, b, c], [a]) == [b, c]
    ensures Missing([a], [a, b, c]) == []
  {
    assert [a][..0] == [];
    assert Missing([a], [a]) == [];
    assert [a, b][..1] == [a];
    assert Missing([a, b], [a]) == [b];
    assert [a, b, c][..2] == [a, b];
  }

  /** A spec listing a group twice makes a pass join it twice and record it twice. */
  lemma DuplicateGroupsJoinedTwice(user: string, a: string)
    ensures var status := AwsAccountStatus(Created, []);
      var p := ReconcilePass(true, AwsAccountSpec(user, [a, a]), status, []);
      p.err.None? && p.stored.userGroups == [a, a] &&
      |p.events| == 5 && p.events[1].call == AddUserToGroup(a, user) && p.events[3].call == AddUserToGroup(a, user)
  {
    var status := AwsAccountStatus(Created, []);
    MissingNone([a, a], []);
    BootstrappedPass(AwsAccountSpec(user, [a, a]), status, []);
    var p0 := Pass(status, status, [Event(Get, true)], [], None);
    JoinRound(p0, user, [a, a]);
    var s1 := AwsAccountStatus(Created, [a]);
    var p1 := Pass(s1, s1, p0.events + [Event(AddUserToGroup(a, user), true), Event(UpdateStatus(s1), true)], [], None);
    JoinRound(p1, user, [a]);
    var s2 := AwsAccountStatus(Created, [a, a]);
    var p2 := Pass(s2, s2, p1.events + [Event(AddUserToGroup(a, user), true), Event(UpdateStatus(s2), true)], [], None);
    assert AddGroups(p2, user, []) == p2;
  }

  /** A join that fails stops the pass with the earlier groups recorded and
      the failed join as its error. */
  lemma GroupFailureStopsPass(user: string, a: string, b: string, c: string)
    ensures var spec := AwsAccountSpec(user, [a, b, c]);
      var p := ReconcilePass(true, spec, AwsAccountStatus(Created, []), [true, true, true, false]);
      p.stored == AwsAccountStatus(Created, [a]) && p.err == Some(AddUserToGroup(b, user))
  {
    var status := AwsAccountStatus(Created, []);
    MissingNone([a, b, c], []);
    BootstrappedPass(AwsAccountSpec(user, [a, b, c]), status, [true, true, true, false]);
    var p0 := Pass(status, status, [Event(Get, true)], [true, true, false], None);
    JoinRound(p0, user, [a, b, c]);
    var s1 := AwsAccountStatus(Created, [a]);
    var p1 := Pass(s1, s1, p0.events + [Event(AddUserToGroup(a, user), true), Event(UpdateStatus(s1), true)], [false], None);
    assert [a, b, c][1..] == [b, c];
    assert AddGroups(p1, user, [b, c]) == Ask(p1, AddUserToGroup(b, user));
  }

  /** The pass after that one joins only the groups still missing. */
  lemma GroupFailureResumes(user: string, a: string, b: string, c: string)
    requires b != a && c != a
    ensures var spec := AwsAccountSpec(user, [a, b, c]);
      var q := ReconcilePass(true, spec, AwsAccountStatus(Created, [a]), []);
      q.err.None? && q.stored.userGroups == [a, b, c] &&
      |q.events| == 5 && q.events[1].call == AddUserToGroup(b, user) && q.events[3].call == AddUserToGroup(c, user)
  {
    var status := AwsAccountStatus(Created, [a]);
    ThreeGroupsOneRecorded(a, b, c);
    BootstrappedPass(AwsAccountSpec(user, [a, b, c]), status, []);
    var p0 := Pass(status, status, [Event(Get, true)], [], None);
    JoinRound(p0, user, [b, c]);
    var s1 := AwsAccountStatus(Created, [a, b]);
    var p1 := Pass(s1, s1, p0.events + [Event(AddUserToGroup(b, user), true), Event(UpdateStatus(s1), true)], [], None);
    JoinRound(p1, user, [c]);
    var s2 := AwsAccountStatus(Created, [a, b, c]);
    var p2 := Pass(s2, s2, p1.events + [Event(AddUserToGroup(c, user), true), Event(UpdateStatus(s2), true)], [], None);
    assert AddGroups(p2, user, []) == p2;
  }

  /** Groups recorded in the status but no longer in the spec are computed as
      unwanted and left alone: the pass fetches and does nothing else. */
  lemma RemovalIsNeverAttempted(user: string, a: string, b: string, c: string)
    requires b != a && c != a
    ensures var status := AwsAccountStatus(Created, [a, b, c]);
      var p := ReconcilePass(true, AwsAccountSpec(user, [a]), status, []);
      Missing(status.userGroups, [a]) == [b, c] &&
      p.events == [Event(Get, true)] && p.stored == status && p.err.None?
  {
    var status := AwsAccountStatus(Created, [a, b, c]);
    ThreeGroupsOneRecorded(a, b, c);
    BootstrappedPass(AwsAccountSpec(user, [a]), status, []);
    var p0 := Pass(status, status, [Event(Get, true)], [], None);
    assert AddGroups(p0, user, []) == p0;
  }
}
