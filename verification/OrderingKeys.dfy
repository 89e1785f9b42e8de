/** The pause/resume protocol of ordering keys between concurrent `forward` calls and one Pub/Sub
    publisher: a failed publish pauses its key, publishes on a paused key are rejected, and forward
    resumes the key of a publish that it saw fail. */
module OrderingKeys {
  /** A forward call: waiting for its publish, or holding an error and about to resume its key. */
  datatype Flight = Waiting(key: string) | OwesResume(key: string)

  /** `abandoned` holds publishes still under way whose forward stopped waiting because its context
      ended; `leaked` the keys such a publish paused after that, until someone resumes them. */
  datatype State = State(
    paused: set<string>, flights: map<nat, Flight>, abandoned: map<nat, string>, leaked: set<string>,
    resumed: seq<string>)

  datatype Step =
    | Publish(id: nat, key: string)
    | Ack(id: nat)
    | Fail(id: nat)
    | GiveUp(id: nat)
    | LateAck(id: nat)
    | LateFail(id: nat, key: string)
    | Resume(id: nat, key: string)

  const INITIAL: State := State({}, map[], map[], {}, [])

  predicate IsWaiting(s: State, id: nat) {
    id in s.flights && s.flights[id].Waiting?
  }

  predicate Enabled(s: State, step: Step) {
    match step
    case Publish(id, _) => id !in s.flights && id !in s.abandoned
    case Ack(id) => IsWaiting(s, id)
    case Fail(id) => IsWaiting(s, id)
    case GiveUp(id) => IsWaiting(s, id)
    case LateAck(id) => id in s.abandoned
    case LateFail(id, key) => id in s.abandoned && s.abandoned[id] == key
    case Resume(id, key) => id in s.flights && s.flights[id] == OwesResume(key)
  }

  /** A failed publish pauses its key; a message without a key has none to pause. */
  function Pause(paused: set<string>, key: string): set<string> {
    if key == "" then paused else paused + {key}
  }

  function Apply(s: State, step: Step): State
    requires Enabled(s, step)
  {
    match step
    case Publish(id, key) =>
      s.(flights := s.flights[id := if key in s.paused then OwesResume(key) else Waiting(key)])
    case Ack(id) => s.(flights := s.flights - {id})
    case Fail(id) =>
      var key := s.flights[id].key;
      s.(flights := s.flights[id := OwesResume(key)], paused := Pause(s.paused, key))
    case GiveUp(id) =>
      var key := s.flights[id].key;
      s.(flights := s.flights[id := OwesResume(key)], abandoned := s.abandoned[id := key])
    case LateAck(id) => s.(abandoned := s.abandoned - {id})
    case LateFail(id, key) =>
      s.(abandoned := s.abandoned - {id}, paused := Pause(s.paused, key), leaked := Pause(s.leaked, key))
    case Resume(id, key) =>
      if key == "" then s.(flights := s.flights - {id})
      else State(s.paused - {key}, s.flights - {id}, s.abandoned, s.leaked - {key}, s.resumed + [key])
  }

  predicate Legal(s: State, run: seq<Step>)
    decreases |run|
  {
    run == [] || (Enabled(s, run[0]) && Legal(Apply(s, run[0]), run[1..]))
  }

  function After(s: State, run: seq<Step>): State
    requires Legal(s, run)
    decreases |run|
  {
    if run == [] then s else After(Apply(s, run[0]), run[1..])
  }

  /** Some forward in flight on `key` still owes a ResumePublish. */
  ghost predicate Owed(s: State, key: string) {
    exists id :: id in s.flights && s.flights[id] == OwesResume(key)
  }

  ghost predicate Inv(s: State) {
    && (forall k :: k in s.paused ==> Owed(s, k) || k in s.leaked)
    && s.leaked <= s.paused
    && "" !in s.paused
    && "" !in s.resumed
    && (forall id :: id in s.abandoned && id in s.flights ==> s.flights[id].OwesResume?)
  }

  lemma StepKeepsInv(s: State, step: Step)
    requires Inv(s) && Enabled(s, step)
    ensures Inv(Apply(s, step))
  {
    var s' := Apply(s, step);
    forall k | k in s'.paused
      ensures Owed(s', k) || k in s'.leaked
    {
      if Owed(s, k) {
        var id :| id in s.flights && s.flights[id] == OwesResume(k);
        assert (step.Resume? && step.id == id) || (id in s'.flights && s'.flights[id] == OwesResume(k));
      } else if step.Fail? && k !in s.paused {
        assert s'.flights[step.id] == OwesResume(k);
      }
    }
  }

  lemma {:induction false} RunKeepsInv(s: State, run: seq<Step>)
    requires Inv(s) && Legal(s, run)
    ensures Inv(After(s, run))
    decreases |run|
  {
    if run == [] {
    } else {
      StepKeepsInv(s, run[0]);
      RunKeepsInv(Apply(s, run[0]), run[1..]);
    }
  }

  lemma {:induction false} NoGiveUpNoLeak(s: State, run: seq<Step>)
    requires Legal(s, run) && s.abandoned == map[] && s.leaked == {}
    requires forall step :: step in run ==> !step.GiveUp?
    ensures After(s, run).abandoned == map[] && After(s, run).leaked == {}
    decreases |run|
  {
    if run == [] {
    } else {
      assert run[0] in run;
      NoGiveUpNoLeak(Apply(s, run[0]), run[1..]);
    }
  }

  /** Over every interleaving and every pattern of publish failures: a paused key is one that some
      forward in flight is about to resume, or one paused behind the back of a forward that had
      stopped waiting. The empty key is never paused and never resumed. */
  lemma PausedKeyIsOwed(run: seq<Step>, key: string)
    requires Legal(INITIAL, run)
    ensures var s := After(INITIAL, run);
            && (key in s.paused ==> Owed(s, key) || key in s.leaked)
            && "" !in s.paused && "" !in s.resumed
  {
    RunKeepsInv(INITIAL, run);
  }

  /** The run does not resume the key. */
  ghost predicate NeverResumed(run: seq<Step>, key: string) {
    forall l :: 0 <= l < |run| ==> !(run[l].Resume? && run[l].key == key)
  }

  /** Some abandoned publish on the key fails, and the key is not resumed after that. */
  ghost predicate FailsLate(run: seq<Step>, key: string) {
    exists j :: 0 <= j < |run| && run[j].LateFail? && run[j].key == key && NeverResumed(run[j + 1..], key)
  }

  lemma FailsLateFirst(run: seq<Step>, key: string)
    requires run != []
    ensures FailsLate(run, key) <==>
            FailsLate(run[1..], key) || (run[0].LateFail? && run[0].key == key && NeverResumed(run[1..], key))
  {
    var rest := run[1..];
    if FailsLate(run, key) {
      var j :| 0 <= j < |run| && run[j].LateFail? && run[j].key == key && NeverResumed(run[j + 1..], key);
      if j > 0 {
        assert rest[j - 1] == run[j] && rest[j..] == run[j + 1..];
      }
    }
    if FailsLate(rest, key) {
      var j :| 0 <= j < |rest| && rest[j].LateFail? && rest[j].key == key && NeverResumed(rest[j + 1..], key);
      assert run[j + 1] == rest[j] && run[j + 2..] == rest[j + 1..];
    }
  }

  lemma {:induction false} LeakedIff(s: State, run: seq<Step>, key: string)
    requires Legal(s, run) && key != ""
    ensures key in After(s, run).leaked <==> FailsLate(run, key) || (key in s.leaked && NeverResumed(run, key))
    decreases |run|
  {
    if run == [] {
    } else {
      var rest := run[1..];
      LeakedIff(Apply(s, run[0]), rest, key);
      FailsLateFirst(run, key);
      assert NeverResumed(run, key) <==> NeverResumed(rest, key) && !(run[0].Resume? && run[0].key == key) by {
        assert forall l :: 0 <= l < |rest| ==> rest[l] == run[l + 1];
        assert forall l :: 0 < l < |run| ==> run[l] == rest[l - 1];
      }
    }
  }

  /** Once every forward has returned, a key is paused if and only if some publish on it failed after its forward
      had stopped waiting, and nobody resumed the key since; without an abandoned publish none is. */
  lemma PausedAtQuiescenceIff(run: seq<Step>, key: string)
    requires Legal(INITIAL, run) && After(INITIAL, run).flights == map[]
    ensures key in After(INITIAL, run).paused <==> key != "" && FailsLate(run, key)
    ensures (forall step :: step in run ==> !step.GiveUp?) ==> After(INITIAL, run).paused == {}
  {
    RunKeepsInv(INITIAL, run);
    if key != "" {
      LeakedIff(INITIAL, run, key);
    }
    if forall step :: step in run ==> !step.GiveUp? {
      NoGiveUpNoLeak(INITIAL, run);
    }
  }

  /** A forward whose context ends early does leave its key paused: it resumes first, and its publish
      fails afterwards. */
  lemma AbandonedPublishLeavesKeyPaused()
    ensures var run := [Publish(0, "k"), GiveUp(0), Resume(0, "k"), LateFail(0, "k")];
            Legal(INITIAL, run) && After(INITIAL, run).flights == map[] && After(INITIAL, run).paused == {"k"}
  {
  }

  /** Such a key heals with the next event for it: that forward is rejected, and resumes the key. */
  lemma NextForwardHealsKey(s: State, id: nat, key: string)
    requires Inv(s) && key in s.paused && id !in s.flights && id !in s.abandoned
    ensures var rejected := Apply(s, Publish(id, key));
            && Enabled(rejected, Resume(id, key))
            && var healed := Apply(rejected, Resume(id, key));
               key !in healed.paused && key !in healed.leaked && healed.flights == s.flights
  {
  }
}
