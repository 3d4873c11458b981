/** Join and Leave around whole passes: which of them may do anything at all. */
module Sessions {
  import opened Wrappers
  import opened WorkApi
  import opened Lifecycle
  import opened Applying
  import opened Reconciler

  /** Both clusters, and whether the reconciler is joined. */
  datatype Session = Session(joined: bool, world: World)

  datatype Turn =
    | Joins
    | Leaves(listError: Option<ApiError>, listed: seq<(string, Work)>, faults: nat -> Option<string>)
    | Reconciles(name: string, answers: PassAnswers)

  function Play(s: Session, mapper: RestMapper, turn: Turn): Session {
    match turn
    case Joins => s.(joined := true)
    case Leaves(listError, listed, faults) =>
      Session(false, if listError.Some? then s.world
        else s.world.(hub := LeaveUpTo(s.world.hub, listed, faults, |listed|).hub))
    case Reconciles(name, answers) => s.(world := Pass(s.joined, s.world, mapper, name, answers).world)
  }

  function PlayAll(s: Session, mapper: RestMapper, turns: seq<Turn>): Session
    decreases |turns|
  {
    if turns == [] then s else Play(PlayAll(s, mapper, turns[..|turns| - 1]), mapper, turns[|turns| - 1])
  }

  /** The last Join comes before the last Leave, or there is none. */
  predicate LeftSince(turns: seq<Turn>, leave: nat) {
    && leave < |turns| && turns[leave].Leaves?
    && forall k :: leave < k < |turns| ==> !turns[k].Joins?
  }

  lemma {:induction false} StaysLeft(s: Session, mapper: RestMapper, turns: seq<Turn>, leave: nat)
    requires LeftSince(turns, leave)
    ensures !PlayAll(s, mapper, turns).joined
    decreases |turns|
  {
    hide LeaveUpTo, Pass;
    if leave < |turns| - 1 {
      StaysLeft(s, mapper, turns[..|turns| - 1], leave);
    }
  }

  /** Turn k is a Join with no Leave after it. */
  predicate JoinedAt(turns: seq<Turn>, k: nat) {
    && k < |turns| && turns[k].Joins?
    && forall l :: k < l < |turns| ==> !turns[l].Leaves?
  }

  /** Joined is what the last Join or Leave made it. */
  lemma {:induction false} JoinedUntilLeave(s: Session, mapper: RestMapper, turns: seq<Turn>)
    ensures PlayAll(s, mapper, turns).joined <==>
            (exists k :: JoinedAt(turns, k)) || (s.joined && forall l :: 0 <= l < |turns| ==> !turns[l].Leaves?)
    decreases |turns|
  {
    hide LeaveUpTo, Pass;
    if turns != [] {
      var n := |turns| - 1;
      var init := turns[..n];
      JoinedUntilLeave(s, mapper, init);
      assert forall k :: 0 <= k < n ==> turns[k] == init[k];
      if turns[n].Joins? {
        assert JoinedAt(turns, n);
      } else if !turns[n].Leaves? {
        forall k: nat ensures JoinedAt(turns, k) <==> JoinedAt(init, k) {}
      }
    }
  }

  /**
   After a Leave, whether its list call or any of its updates failed or not, and until the next
   Join: a reconcile asks to be repeated after five seconds, issues no write, reports no error,
   and leaves both clusters as they are. Not even the turns in between touch the member cluster.
   */
  lemma NothingHappensAfterLeave(s: Session, mapper: RestMapper, turns: seq<Turn>, leave: nat, name: string,
      answers: PassAnswers)
    requires LeftSince(turns, leave)
    ensures var now := PlayAll(s, mapper, turns);
            && Pass(now.joined, now.world, mapper, name, answers) ==
              PassOut(now.world, NOT_JOINED_REQUEUE, [], false, 0)
            && PlayAll(s, mapper, turns + [Reconciles(name, answers)]) == now
    ensures var now, then' := PlayAll(s, mapper, turns).world, PlayAll(s, mapper, turns[..leave + 1]).world;
            now.objs == then'.objs && now.registry == then'.registry
    decreases |turns|
  {
    hide LeaveUpTo;
    StaysLeft(s, mapper, turns, leave);
    assert (turns + [Reconciles(name, answers)])[..|turns|] == turns;
    if leave < |turns| - 1 {
      var init := turns[..|turns| - 1];
      StaysLeft(s, mapper, init, leave);
      NothingHappensAfterLeave(s, mapper, init, leave, name, answers);
      assert init[..leave + 1] == turns[..leave + 1];
    } else {
      assert turns[..leave + 1] == turns;
    }
  }
}
