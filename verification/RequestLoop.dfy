/** The companion's request loop (`run_agent_stdio` in crates/cli/src/main.rs): one reader, one worker thread per accepted
    job, a shared registry of active jobs and a cancel flag per job. Every step below is atomic in the source (one frame
    read, one locked registry access, one flag store, one locked write), and the steps of the reader and of the workers
    interleave freely. Jobs and requests are named by the position of their frame in the input. */
module RequestLoop {

  datatype Operation = Cancel(target: string) | Work

  datatype Frame = NotRequest | Request(id: string, generation: nat, valid: bool, operation: Operation)

  datatype Code = InvalidRequest | StaleGeneration

  datatype Body = Failure(code: Code) | CancelAccepted(target: string) | Result(payload: string)

  datatype Response = Response(origin: nat, id: string, generation: nat, body: Body)

  datatype Entry = Entry(generation: nat, job: nat)

  datatype Phase = Idle | Handling(frame: nat) | Cancelling(frame: nat, job: nat) | Spawning(frame: nat) |
                   Replying(frame: nat, response: Response) | Stopped

  /** `running` jobs have not tried to respond yet; `closing` jobs have, and still own their registry entry. A frame is
      `lost` when the write of its response failed. `accepted` and `cancels` only record the past. */
  datatype State = State(next: nat, phase: Phase, registry: map<string, Entry>, running: set<nat>, closing: set<nat>,
                         output: seq<Response>, lost: set<nat>, flagged: set<nat>,
                         accepted: set<nat>, cancels: set<(nat, nat)>)

  datatype Step = Read | EndOfInput | ReadFailure | Handle | Flag | Spawn | Reply(written: bool) |
                  Answer(job: nat, payload: string, written: bool) | Release(job: nat)

  const START := State(0, Idle, map[], {}, {}, [], {}, {}, {}, {})

  predicate Enabled(input: seq<Frame>, s: State, step: Step) {
    match step
    case Read => s.phase.Idle? && s.next < |input|
    case EndOfInput => s.phase.Idle? && s.next == |input|
    case ReadFailure => s.phase.Idle?
    case Handle => s.phase.Handling? && s.phase.frame < |input|
    case Flag => s.phase.Cancelling? && s.phase.frame < |input| && IsCancel(input[s.phase.frame])
    case Spawn => s.phase.Spawning?
    case Reply(_) => s.phase.Replying?
    case Answer(job, _, _) => job in s.running && job < |input| && input[job].Request?
    case Release(job) => job in s.closing && job < |input| && input[job].Request?
  }

  predicate IsCancel(f: Frame) {
    f.Request? && f.operation.Cancel?
  }

  function ResponseTo(origin: nat, f: Frame, body: Body): Response {
    if f.Request? then Response(origin, f.id, f.generation, body) else Response(origin, "invalid-message", 0, body)
  }

  function Refuse(s: State, k: nat, f: Frame, code: Code): State {
    s.(phase := Replying(k, ResponseTo(k, f, Failure(code))))
  }

  /** What the reader decides about one frame; the registry is looked at once, under its lock. */
  function HandleFrame(s: State, k: nat, f: Frame): State {
    if f.NotRequest? || !f.valid then Refuse(s, k, f, InvalidRequest)
    else
      match f.operation
      case Cancel(target) =>
        if target in s.registry && s.registry[target].generation == f.generation
        then s.(phase := Cancelling(k, s.registry[target].job))
        else Refuse(s, k, f, StaleGeneration)
      case Work =>
        if f.id in s.registry then Refuse(s, k, f, InvalidRequest)
        else s.(phase := Spawning(k), registry := s.registry[f.id := Entry(f.generation, k)], accepted := s.accepted + {k})
  }

  function Apply(input: seq<Frame>, s: State, step: Step): State
    requires Enabled(input, s, step)
  {
    match step
    case Read => s.(phase := Handling(s.next), next := s.next + 1)
    case EndOfInput => s.(phase := Stopped)
    case ReadFailure => s.(phase := Stopped)
    case Handle => HandleFrame(s, s.phase.frame, input[s.phase.frame])
    case Flag =>
      var k, job := s.phase.frame, s.phase.job;
      s.(phase := Replying(k, ResponseTo(k, input[k], CancelAccepted(input[k].operation.target))),
         flagged := s.flagged + {job}, cancels := s.cancels + {(k, job)})
    case Spawn => s.(phase := Idle, running := s.running + {s.phase.frame})
    case Reply(written) =>
      if written then s.(phase := Idle, output := s.output + [s.phase.response])
      else s.(phase := Stopped, lost := s.lost + {s.phase.frame})
    case Answer(job, payload, written) =>
      var t := s.(running := s.running - {job}, closing := s.closing + {job});
      if written then t.(output := s.output + [ResponseTo(job, input[job], Result(payload))])
      else t.(lost := s.lost + {job})
    case Release(job) => s.(closing := s.closing - {job}, registry := s.registry - {input[job].id})
  }

  /** The states of a run, in order. */
  predicate IsRun(input: seq<Frame>, states: seq<State>, steps: seq<Step>) {
    && |states| == |steps| + 1
    && states[0] == START
    && forall k | 0 <= k < |steps| :: Enabled(input, states[k], steps[k]) &&
        states[k + 1] == Apply(input, states[k], steps[k])
  }

  /* ---- What every step keeps ---- */

  function InHand(s: State): set<nat> {
    match s.phase
    case Idle => {}
    case Stopped => {}
    case Handling(k) => {k}
    case Cancelling(k, _) => {k}
    case Spawning(k) => {k}
    case Replying(k, _) => {k}
  }

  function Answered(output: seq<Response>): set<nat> {
    if output == [] then {} else {output[0].origin} + Answered(output[1..])
  }

  /** How many of the four homes of a frame hold frame `k`. */
  function Homes(s: State, k: nat): nat {
    (if k in Answered(s.output) then 1 else 0) + (if k in s.lost then 1 else 0) +
    (if k in s.running then 1 else 0) + (if k in InHand(s) then 1 else 0)
  }

  /** Every frame read so far is answered, lost, with a worker or in the reader's hands, and only one of these. */
  ghost predicate Accounted(s: State) {
    && (forall k: nat :: Homes(s, k) == if k < s.next then 1 else 0)
    && s.closing <= Answered(s.output) + s.lost
  }

  /** The kinds of answer a frame can get. */
  predicate Fits(f: Frame, body: Body) {
    if f.NotRequest? || !f.valid then body == Failure(InvalidRequest)
    else if f.operation.Cancel? then body == CancelAccepted(f.operation.target) || body == Failure(StaleGeneration)
    else body.Result? || body == Failure(InvalidRequest)
  }

  /** A response carries the id and generation of the frame it answers. */
  predicate Faithful(input: seq<Frame>, r: Response) {
    r.origin < |input| && r == ResponseTo(r.origin, input[r.origin], r.body) && Fits(input[r.origin], r.body)
  }

  predicate Answers(input: seq<Frame>, s: State) {
    && (forall r | r in s.output :: Faithful(input, r))
    && (forall i, j | 0 <= i < j < |s.output| :: s.output[i].origin != s.output[j].origin)
    && (s.phase.Replying? ==> Faithful(input, s.phase.response) && s.phase.response.origin == s.phase.frame)
  }

  function Live(s: State): set<nat> {
    s.running + s.closing + (if s.phase.Spawning? then {s.phase.frame} else {})
  }

  predicate Owns(input: seq<Frame>, s: State, job: nat) {
    && job < s.next <= |input| && job in s.accepted && input[job].Request? && input[job].valid && input[job].operation.Work?
    && input[job].id in s.registry && s.registry[input[job].id] == Entry(input[job].generation, job)
  }

  /** The registry lists exactly the live jobs, each under its own id. */
  predicate Registered(input: seq<Frame>, s: State) {
    && s.running !! s.closing && (s.phase.Spawning? ==> s.phase.frame !in s.running + s.closing)
    && (forall job | job in Live(s) :: Owns(input, s, job))
    && (forall id | id in s.registry :: s.registry[id].job in Live(s) && Owns(input, s, s.registry[id].job) &&
                                        input[s.registry[id].job].id == id)
  }

  predicate Accepted(input: seq<Frame>, s: State) {
    forall job | job in s.accepted :: job < s.next <= |input| && input[job].Request?
  }

  /** Of the accepted jobs with the id of `job`, none lies after it and before `bound`. */
  predicate Latest(input: seq<Frame>, s: State, job: nat, bound: nat)
    requires Accepted(input, s) && job in s.accepted
  {
    forall other | other in s.accepted && input[other].id == input[job].id :: other <= job || other > bound
  }

  predicate Named(input: seq<Frame>, s: State, k: nat, job: nat) {
    && Accepted(input, s) && job in s.accepted && job < k < |input| && IsCancel(input[k]) && input[k].valid
    && input[job].id == input[k].operation.target && input[job].generation == input[k].generation
    && Latest(input, s, job, k)
  }

  /** A flag is set only by a cancel frame, on the job it names, and never on a job accepted later. */
  ghost predicate Cancels(input: seq<Frame>, s: State) {
    && Accepted(input, s)
    && (s.phase.Cancelling? ==> Named(input, s, s.phase.frame, s.phase.job))
    && (forall c | c in s.cancels :: c.0 < s.next && Named(input, s, c.0, c.1))
    && (forall job | job in s.flagged :: exists k: nat :: (k, job) in s.cancels)
    && (forall c | c in s.cancels :: c.1 in s.flagged)
  }

  ghost predicate Recorded(s: State, r: Response) {
    r.body.CancelAccepted? ==> exists job: nat :: (r.origin, job) in s.cancels
  }

  /** A cancel is acknowledged only after it has set a flag. */
  ghost predicate Acknowledged(s: State) {
    (forall r | r in s.output :: Recorded(s, r)) && (s.phase.Replying? ==> Recorded(s, s.phase.response))
  }

  /** The job a registry entry belongs to is the newest accepted one with that id. */
  predicate Newest(input: seq<Frame>, s: State) {
    Accepted(input, s) && forall job | job in Live(s) :: job in s.accepted && Latest(input, s, job, s.next)
  }

  predicate InOrder(input: seq<Frame>, s: State) {
    s.next <= |input| && forall k | k in InHand(s) :: k + 1 == s.next
  }

  ghost predicate Invariant(input: seq<Frame>, s: State) {
    InOrder(input, s) && Accounted(s) && Answers(input, s) && Registered(input, s) && Newest(input, s) &&
        Cancels(input, s) &&
    Acknowledged(s)
  }

  lemma {:induction false} AnsweredSnoc(output: seq<Response>, r: Response)
    ensures Answered(output + [r]) == Answered(output) + {r.origin}
  {
    if output == [] {
      assert (output + [r])[1..] == [];
    } else {
      assert (output + [r])[1..] == output[1..] + [r];
      AnsweredSnoc(output[1..], r);
    }
  }

  lemma {:induction false} AnsweredAll(output: seq<Response>)
    ensures forall r | r in output :: r.origin in Answered(output)
    ensures forall k | k in Answered(output) :: exists r :: r in output && r.origin == k
  {
    if output != [] {
      AnsweredAll(output[1..]);
      forall k | k in Answered(output) ensures exists r :: r in output && r.origin == k {
        if k == output[0].origin {
          assert output[0] in output;
        }
      }
    }
  }

  lemma StepOrder(input: seq<Frame>, s: State, step: Step)
    requires InOrder(input, s) && Enabled(input, s, step)
    ensures InOrder(input, Apply(input, s, step))
  {
    assert forall k | k in InHand(s) :: k + 1 == s.next;
    assert !step.Read? && !step.Answer? && !step.Release? ==> InHand(Apply(input, s, step)) <= InHand(s);
  }

  /** Where one frame lives after a step. */
  lemma StepHomes(input: seq<Frame>, s: State, step: Step, k: nat)
    requires Accounted(s) && Answers(input, s) && Enabled(input, s, step)
    ensures Homes(Apply(input, s, step), k) == Homes(s, k) + if step.Read? && k == s.next then 1 else 0
  {
    assert Homes(s, k) <= 1;
    match step {
      case Reply(written) => AnsweredSnoc(s.output, s.phase.response);
      case Answer(job, payload, written) => AnsweredSnoc(s.output, ResponseTo(job, input[job], Result(payload)));
      case _ =>
    }
  }

  lemma StepAccounts(input: seq<Frame>, s: State, step: Step)
    requires Accounted(s) && Answers(input, s) && Enabled(input, s, step)
    ensures Accounted(Apply(input, s, step))
  {
    var t := Apply(input, s, step);
    forall k: nat ensures Homes(t, k) == if k < t.next then 1 else 0 {
      StepHomes(input, s, step, k);
    }
    match step {
      case Reply(written) => AnsweredSnoc(s.output, s.phase.response);
      case Answer(job, payload, written) => AnsweredSnoc(s.output, ResponseTo(job, input[job], Result(payload)));
      case _ =>
    }
  }

  lemma AnswersSnoc(input: seq<Frame>, s: State, r: Response)
    requires Answers(input, s) && Faithful(input, r) && r.origin !in Answered(s.output)
    ensures forall q | q in s.output + [r] :: Faithful(input, q)
    ensures forall i, j | 0 <= i < j < |s.output + [r]| :: (s.output + [r])[i].origin != (s.output + [r])[j].origin
  {
    AnsweredAll(s.output);
  }

  lemma StepAnswers(input: seq<Frame>, s: State, step: Step)
    requires Answers(input, s) && Registered(input, s) && Enabled(input, s, step) && InOrder(input, s)
    requires s.phase.Cancelling? ==> s.phase.frame < |input| && IsCancel(input[s.phase.frame]) && input[s.phase.frame].valid
    requires forall k | k in s.running + InHand(s) :: k !in Answered(s.output)
    ensures Answers(input, Apply(input, s, step))
  {
    match step {
      case Reply(written) =>
        assert s.phase.frame in InHand(s);
        AnswersSnoc(input, s, s.phase.response);
      case Answer(job, payload, written) =>
        assert job in Live(s) && Owns(input, s, job);
        AnswersSnoc(input, s, ResponseTo(job, input[job], Result(payload)));
      case _ =>
    }
  }

  /** A new entry is only made under an id that is free. */
  lemma HandleRegisters(input: seq<Frame>, s: State)
    requires InOrder(input, s) && Registered(input, s) && Accepted(input, s) && Enabled(input, s, Handle)
    requires s.phase.frame !in s.running + s.closing
    ensures Registered(input, Apply(input, s, Handle)) && Accepted(input, Apply(input, s, Handle))
  {
    var k, t := s.phase.frame, Apply(input, s, Handle);
    assert k in InHand(s);
    forall job | job in Live(t) ensures Owns(input, t, job) {
      assert job in Live(s) ==> Owns(input, s, job);
    }
    forall id | id in t.registry
      ensures t.registry[id].job in Live(t) && Owns(input, t, t.registry[id].job) && input[t.registry[id].job].id == id
    {
      assert id in s.registry ==> Owns(input, s, s.registry[id].job);
    }
  }

  /** The entry a worker removes is its own, and every other live job keeps the entry it has. */
  lemma ReleaseRegisters(input: seq<Frame>, s: State, job: nat)
    requires Registered(input, s) && Enabled(input, s, Release(job))
    ensures input[job].id in s.registry && s.registry[input[job].id].job == job
    ensures Registered(input, Apply(input, s, Release(job)))
    ensures forall other | other in Live(s) && other != job :: Owns(input, Apply(input, s, Release(job)), other)
  {
    var t := Apply(input, s, Release(job));
    assert job in Live(s) && Owns(input, s, job);
    forall other | other in Live(s) && other != job ensures Owns(input, t, other) {
      assert Owns(input, s, other);
    }
    forall id | id in t.registry
      ensures t.registry[id].job in Live(t) && Owns(input, t, t.registry[id].job) && input[t.registry[id].job].id == id
    {
      assert Owns(input, s, s.registry[id].job);
    }
  }

  lemma SameRegistry(input: seq<Frame>, s: State, t: State)
    requires Registered(input, s) && Live(t) == Live(s) && t.registry == s.registry && t.accepted == s.accepted
    requires s.next <= t.next <= |input| && t.running !! t.closing
    requires t.phase.Spawning? ==> t.phase.frame !in t.running + t.closing
    ensures Registered(input, t)
  {
    forall job | job in Live(t) ensures Owns(input, t, job) {
      assert Owns(input, s, job);
    }
    forall id | id in t.registry ensures Owns(input, t, t.registry[id].job) {
      assert Owns(input, s, s.registry[id].job);
    }
  }

  lemma StepRegisters(input: seq<Frame>, s: State, step: Step)
    requires InOrder(input, s) && Registered(input, s) && Accepted(input, s) && Enabled(input, s, step)
    requires forall k | k in InHand(s) :: k !in s.running + s.closing
    ensures Registered(input, Apply(input, s, step)) && Accepted(input, Apply(input, s, step))
  {
    match step {
      case Handle =>
        assert s.phase.frame in InHand(s);
        HandleRegisters(input, s);
      case Release(job) => ReleaseRegisters(input, s, job);
      case _ => SameRegistry(input, s, Apply(input, s, step));
    }
  }

  lemma StepNewest(input: seq<Frame>, s: State, step: Step)
    requires InOrder(input, s) && Registered(input, s) && Newest(input, s) && Enabled(input, s, step)
    requires Accepted(input, Apply(input, s, step))
    ensures Newest(input, Apply(input, s, step))
  {
    var t := Apply(input, s, step);
    if step.Handle? {
      assert s.phase.frame in InHand(s);
    }
    forall job | job in Live(t) ensures job in t.accepted && Latest(input, t, job, t.next) {
      assert job in Live(s) || (step.Handle? && job == s.phase.frame);
    }
  }

  lemma NamedStays(input: seq<Frame>, s: State, t: State, k: nat, job: nat)
    requires Named(input, s, k, job) && Accepted(input, t) && s.accepted <= t.accepted
    requires forall other | other in t.accepted - s.accepted :: other > k
    ensures Named(input, t, k, job)
  {
    forall other | other in t.accepted && input[other].id == input[job].id ensures other <= job || other > k {
      assert other in s.accepted || other in t.accepted - s.accepted;
    }
  }

  lemma StepCancels(input: seq<Frame>, s: State, step: Step)
    requires InOrder(input, s) && Registered(input, s) && Newest(input, s) && Cancels(input, s) && Enabled(input, s, step)
    requires Accepted(input, Apply(input, s, step))
    ensures Cancels(input, Apply(input, s, step))
  {
    var t := Apply(input, s, step);
    forall c | c in t.cancels ensures c.0 < t.next && Named(input, t, c.0, c.1) {
      StepNames(input, s, step, c.0, c.1);
    }
    PhaseNames(input, s, step);
    FlagsRecorded(input, s, step);
  }

  /** A cancel being carried out names the job it was looked up for. */
  lemma PhaseNames(input: seq<Frame>, s: State, step: Step)
    requires InOrder(input, s) && Registered(input, s) && Newest(input, s) && Cancels(input, s) && Enabled(input, s, step)
    requires Accepted(input, Apply(input, s, step))
    ensures var t := Apply(input, s, step); t.phase.Cancelling? ==> Named(input, t, t.phase.frame, t.phase.job)
  {
    var t := Apply(input, s, step);
    if t.phase.Cancelling? {
      if !s.phase.Cancelling? {
        NewlyNamed(input, s, t.phase.frame);
      }
      assert t.accepted == s.accepted;
      NamedStays(input, s, t, t.phase.frame, t.phase.job);
    }
  }

  lemma StepNames(input: seq<Frame>, s: State, step: Step, k: nat, job: nat)
    requires InOrder(input, s) && Cancels(input, s) && Enabled(input, s, step)
    requires Accepted(input, Apply(input, s, step)) && (k, job) in Apply(input, s, step).cancels
    ensures k < Apply(input, s, step).next && Named(input, Apply(input, s, step), k, job)
  {
    var t := Apply(input, s, step);
    if (k, job) in s.cancels {
      assert (k, job).0 == k && (k, job).1 == job;
      AcceptedAfter(input, s, step, k);
    } else {
      assert k == s.phase.frame && job == s.phase.job && k in InHand(s);
    }
    NamedStays(input, s, t, k, job);
  }

  lemma AcceptedAfter(input: seq<Frame>, s: State, step: Step, k: nat)
    requires InOrder(input, s) && Enabled(input, s, step) && k < s.next && IsCancel(input[k])
    ensures forall other | other in Apply(input, s, step).accepted - s.accepted :: other > k
  {
    if step.Handle? {
      assert s.phase.frame in InHand(s);
    }
  }

  lemma NewlyNamed(input: seq<Frame>, s: State, k: nat)
    requires InOrder(input, s) && Registered(input, s) && Newest(input, s)
    requires s.phase == Handling(k) && k < |input| && HandleFrame(s, k, input[k]).phase.Cancelling?
    ensures Named(input, s, k, HandleFrame(s, k, input[k]).phase.job)
  {
    assert k in InHand(s);
    var target := input[k].operation.target;
    assert Owns(input, s, s.registry[target].job);
  }

  lemma FlagsRecorded(input: seq<Frame>, s: State, step: Step)
    requires Cancels(input, s) && Enabled(input, s, step)
    ensures var t := Apply(input, s, step); forall job | job in t.flagged :: exists k: nat :: (k, job) in t.cancels
    ensures var t := Apply(input, s, step); forall c | c in t.cancels :: c.1 in t.flagged
  {
    var t := Apply(input, s, step);
    forall job | job in t.flagged ensures exists k: nat :: (k, job) in t.cancels {
      if job in s.flagged {
        var k: nat :| (k, job) in s.cancels;
        assert (k, job) in t.cancels;
      } else {
        assert (s.phase.frame, job) in t.cancels;
      }
    }
  }

  lemma RecordStays(s: State, t: State, r: Response)
    requires Recorded(s, r) && s.cancels <= t.cancels
    ensures Recorded(t, r)
  {
    if r.body.CancelAccepted? {
      var job: nat :| (r.origin, job) in s.cancels;
      assert (r.origin, job) in t.cancels;
    }
  }

  lemma StepAcknowledges(input: seq<Frame>, s: State, step: Step)
    requires Acknowledged(s) && Enabled(input, s, step)
    ensures Acknowledged(Apply(input, s, step))
  {
    var t := Apply(input, s, step);
    forall r | r in t.output ensures Recorded(t, r) {
      if r in s.output || (step.Reply? && r == s.phase.response) {
        RecordStays(s, t, r);
      }
    }
    if t.phase.Replying? {
      if step.Flag? {
        assert (s.phase.frame, s.phase.job) in t.cancels;
      } else if s.phase.Replying? {
        RecordStays(s, t, t.phase.response);
      }
    }
  }

  lemma StepKeeps(input: seq<Frame>, s: State, step: Step)
    requires Invariant(input, s) && Enabled(input, s, step)
    ensures Invariant(input, Apply(input, s, step))
  {
    forall k | k in s.running + InHand(s) ensures k !in Answered(s.output) {
      assert Homes(s, k) <= 1;
    }
    forall k | k in InHand(s) ensures k !in s.running + s.closing {
      assert Homes(s, k) <= 1;
    }
    StepOrder(input, s, step);
    StepAccounts(input, s, step);
    StepAnswers(input, s, step);
    StepRegisters(input, s, step);
    StepNewest(input, s, step);
    StepCancels(input, s, step);
    StepAcknowledges(input, s, step);
  }

  /** Every state of every run, in every interleaving, satisfies the invariant. */
  lemma {:induction false} RunKeeps(input: seq<Frame>, states: seq<State>, steps: seq<Step>, k: nat)
    requires IsRun(input, states, steps) && k < |states|
    ensures Invariant(input, states[k])
  {
    if k > 0 {
      RunKeeps(input, states, steps, k - 1);
      StepKeeps(input, states[k - 1], steps[k - 1]);
    }
  }

  /* ---- What the invariant means ---- */

  /** What a frame can be answered: a request under its own id and generation, anything else as an invalid message. */
  predicate IsAnswerTo(f: Frame, r: Response) {
    match f
    case NotRequest => r.id == "invalid-message" && r.generation == 0 && r.body == Failure(InvalidRequest)
    case Request(id, generation, valid, operation) =>
      && r.id == id && r.generation == generation
      && if !valid then r.body == Failure(InvalidRequest)
         else
           match operation
           case Cancel(target) => r.body == CancelAccepted(target) || r.body == Failure(StaleGeneration)
           case Work => r.body.Result? || r.body == Failure(InvalidRequest)
  }

  /** At most one response per frame, with that frame's id and generation, and of a kind the frame can get. */
  lemma AtMostOneResponse(input: seq<Frame>, states: seq<State>, steps: seq<Step>, k: nat, i: nat, j: nat)
    requires IsRun(input, states, steps) && k < |states|
    requires i < |states[k].output| && j < |states[k].output|
    ensures states[k].output[i].origin == states[k].output[j].origin ==> i == j
    ensures var r := states[k].output[i]; r.origin < |input| && IsAnswerTo(input[r.origin], r)
  {
    RunKeeps(input, states, steps, k);
    assert states[k].output[i] in states[k].output;
  }

  function Frames(n: nat): set<nat> {
    if n == 0 then {} else Frames(n - 1) + {n - 1}
  }

  lemma {:induction false} FramesAre(n: nat, k: nat)
    ensures k in Frames(n) <==> k < n
  {
    if n > 0 {
      FramesAre(n - 1, k);
    }
  }

  lemma {:induction false} FramesCount(n: nat)
    ensures |Frames(n)| == n
  {
    if n > 0 {
      FramesCount(n - 1);
      FramesAre(n - 1, n - 1);
    }
  }

  lemma {:induction false} AnsweredCount(output: seq<Response>)
    requires forall i, j | 0 <= i < j < |output| :: output[i].origin != output[j].origin
    ensures |Answered(output)| == |output|
  {
    if output != [] {
      AnsweredCount(output[1..]);
      AnsweredAll(output[1..]);
      assert output[0].origin !in Answered(output[1..]);
    }
  }

  lemma Disjoint(a: set<nat>, b: set<nat>, c: set<nat>, d: set<nat>)
    requires a !! b && (a + b) !! c && (a + b + c) !! d
    ensures |a + b + c + d| == |a| + |b| + |c| + |d|
  {
  }

  /** Frames read = responses sent + responses lost + workers still to respond + a frame still being handled. */
  lemma Conservation(input: seq<Frame>, states: seq<State>, steps: seq<Step>, k: nat)
    requires IsRun(input, states, steps) && k < |states|
    ensures states[k].next == |states[k].output| + |states[k].lost| + |states[k].running| + |InHand(states[k])|
  {
    RunKeeps(input, states, steps, k);
    var s := states[k];
    HomesCover(s);
    FramesCount(s.next);
    AnsweredCount(s.output);
    Disjoint(Answered(s.output), s.lost, s.running, InHand(s));
  }

  lemma HomesCover(s: State)
    requires Accounted(s)
    ensures Answered(s.output) + s.lost + s.running + InHand(s) == Frames(s.next)
    ensures Answered(s.output) !! s.lost
    ensures (Answered(s.output) + s.lost) !! s.running
    ensures (Answered(s.output) + s.lost + s.running) !! InHand(s)
  {
    forall k: nat ensures Homes(s, k) == (if k < s.next then 1 else 0) && (k in Frames(s.next) <==> k < s.next) {
      FramesAre(s.next, k);
    }
    assert forall k: nat :: Homes(s, k) <= 1;
  }

  /** A worker removes its own registry entry, and no other live job loses its entry. */
  lemma ReleasesItsOwn(input: seq<Frame>, states: seq<State>, steps: seq<Step>, k: nat)
    requires IsRun(input, states, steps) && k < |steps| && steps[k].Release?
    ensures var job := steps[k].job;
            && input[job].id in states[k].registry && states[k].registry[input[job].id].job == job
            && states[k + 1].registry == states[k].registry - {input[job].id}
            && forall other | other in Live(states[k]) && other != job :: Owns(input, states[k + 1], other)
  {
    RunKeeps(input, states, steps, k);
    ReleaseRegisters(input, states[k], steps[k].job);
  }

  /** Every flag was set by a valid cancel frame naming the job's id and generation, on the newest job that had been
      accepted with that id: a later job that reuses the id is not touched. */
  lemma FlagsHitTheNamedJob(input: seq<Frame>, states: seq<State>, steps: seq<Step>, k: nat, job: nat)
    requires IsRun(input, states, steps) && k < |states| && job in states[k].flagged
    ensures exists c: nat :: (c, job) in states[k].cancels && Named(input, states[k], c, job)
  {
    RunKeeps(input, states, steps, k);
    var c: nat :| (c, job) in states[k].cancels;
  }

  /** An acknowledged cancel did set the flag of a job it names. */
  lemma AcknowledgedCancelsAreSet(input: seq<Frame>, states: seq<State>, steps: seq<Step>, k: nat, r: Response)
    requires IsRun(input, states, steps) && k < |states| && r in states[k].output && r.body.CancelAccepted?
    ensures exists job: nat :: job in states[k].flagged && Named(input, states[k], r.origin, job)
  {
    RunKeeps(input, states, steps, k);
    assert Recorded(states[k], r);
    var job: nat :| (r.origin, job) in states[k].cancels;
    assert job in states[k].flagged;
  }

  /* ---- A job keeps its id until it is released, which is after its response ---- */

  predicate IsWork(f: Frame) {
    f.Request? && f.valid && f.operation.Work?
  }

  /** A live job under this id. */
  predicate Holds(input: seq<Frame>, s: State, id: string) {
    exists job :: job in Live(s) && job < |input| && input[job].Request? && input[job].id == id
  }

  predicate HoldsGeneration(input: seq<Frame>, s: State, id: string, generation: nat) {
    exists job :: job in Live(s) && job < |input| && input[job].Request? && input[job].id == id &&
                  input[job].generation == generation
  }

  /** The registry has an id exactly while a job under it is live, answered or not. */
  lemma HeldWhileLive(input: seq<Frame>, states: seq<State>, steps: seq<Step>, k: nat, id: string)
    requires IsRun(input, states, steps) && k < |states|
    ensures id in states[k].registry <==> Holds(input, states[k], id)
    ensures id in states[k].registry ==>
              forall g :: HoldsGeneration(input, states[k], id, g) <==> states[k].registry[id].generation == g
  {
    RunKeeps(input, states, steps, k);
    var s := states[k];
    forall job | job in Live(s) ensures Owns(input, s, job) {
    }
    if id in s.registry {
      assert s.registry[id].job in Live(s) && Owns(input, s, s.registry[id].job);
    }
  }

  /** A valid request for work is refused exactly while a job with its id is live. */
  lemma RefusedWhileLive(input: seq<Frame>, states: seq<State>, steps: seq<Step>, k: nat)
    requires IsRun(input, states, steps) && k < |steps| && steps[k].Handle? && states[k].phase.Handling?
    requires states[k].phase.frame < |input| && IsWork(input[states[k].phase.frame])
    ensures var frame := states[k].phase.frame;
            states[k + 1].phase == if Holds(input, states[k], input[frame].id)
                                   then Replying(frame, Response(frame, input[frame].id, input[frame].generation,
                                                                 Failure(InvalidRequest)))
                                   else Spawning(frame)
  {
    HeldWhileLive(input, states, steps, k, input[states[k].phase.frame].id);
    assert Enabled(input, states[k], steps[k]);
  }

  /** A valid cancel sets a flag exactly while a job with the id and generation it names is live. */
  lemma CancelledWhileLive(input: seq<Frame>, states: seq<State>, steps: seq<Step>, k: nat)
    requires IsRun(input, states, steps) && k < |steps| && steps[k].Handle? && states[k].phase.Handling?
    requires states[k].phase.frame < |input| && IsCancel(input[states[k].phase.frame]) && input[states[k].phase.frame].valid
    ensures var f := input[states[k].phase.frame];
            states[k + 1].phase.Cancelling? <==> HoldsGeneration(input, states[k], f.operation.target, f.generation)
    ensures var frame := states[k].phase.frame;
            !states[k + 1].phase.Cancelling? ==>
              states[k + 1].phase == Replying(frame, Response(frame, input[frame].id, input[frame].generation,
                                                              Failure(StaleGeneration)))
  {
    var f := input[states[k].phase.frame];
    HeldWhileLive(input, states, steps, k, f.operation.target);
    assert Enabled(input, states[k], steps[k]);
    if HoldsGeneration(input, states[k], f.operation.target, f.generation) {
      var job :| job in Live(states[k]) && job < |input| && input[job].Request? && input[job].id == f.operation.target &&
                 input[job].generation == f.generation;
      assert Holds(input, states[k], f.operation.target);
    }
  }

  /** The first job runs to its response, and the next frame is handled before the job is released. */
  lemma AnsweredNotReleased(input: seq<Frame>, payload: string) returns (states: seq<State>, steps: seq<Step>)
    requires |input| >= 2 && IsWork(input[0])
    ensures IsRun(input, states, steps) && |steps| == 5 && states[5].phase == Handling(1)
    ensures states[5] == State(2, Handling(1), map[input[0].id := Entry(input[0].generation, 0)], {}, {0},
                               [ResponseTo(0, input[0], Result(payload))], {}, {}, {0}, {})
  {
    steps := [Read, Handle, Spawn, Answer(0, payload, true), Read];
    var s1 := Apply(input, START, Read);
    var s2 := Apply(input, s1, Handle);
    var s3 := Apply(input, s2, Spawn);
    var s4 := Apply(input, s3, Answer(0, payload, true));
    states := [START, s1, s2, s3, s4, Apply(input, s4, Read)];
  }

  lemma OneStepMore(input: seq<Frame>, states: seq<State>, steps: seq<Step>, step: Step)
    requires IsRun(input, states, steps) && Enabled(input, states[|steps|], step)
    ensures IsRun(input, states + [Apply(input, states[|steps|], step)], steps + [step])
  {
  }

  /** So a request that reuses the id of a job whose response was already written can be refused. */
  lemma AnsweredIdRefused(input: seq<Frame>, payload: string) returns (states: seq<State>, steps: seq<Step>)
    requires |input| >= 2 && IsWork(input[0]) && IsWork(input[1]) && input[0].id == input[1].id
    ensures IsRun(input, states, steps)
    ensures states[|steps|].output == [Response(0, input[0].id, input[0].generation, Result(payload)),
                                       Response(1, input[1].id, input[1].generation, Failure(InvalidRequest))]
  {
    states, steps := AnsweredNotReleased(input, payload);
    var s6 := Apply(input, states[5], Handle);
    OneStepMore(input, states, steps, Handle);
    states, steps := states + [s6], steps + [Handle];
    OneStepMore(input, states, steps, Reply(true));
    states, steps := states + [Apply(input, s6, Reply(true))], steps + [Reply(true)];
  }

  /** And a cancel can be acknowledged, and set a flag, for a job whose response was already written. */
  lemma AnsweredJobCancelled(input: seq<Frame>, payload: string) returns (states: seq<State>, steps: seq<Step>)
    requires |input| >= 2 && IsWork(input[0]) && IsCancel(input[1]) && input[1].valid
    requires input[1].operation.target == input[0].id && input[1].generation == input[0].generation
    ensures IsRun(input, states, steps) && states[|steps|].flagged == {0}
    ensures states[|steps|].output == [Response(0, input[0].id, input[0].generation, Result(payload)),
                                       Response(1, input[1].id, input[1].generation, CancelAccepted(input[0].id))]
  {
    states, steps := AnsweredNotReleased(input, payload);
    var s6 := Apply(input, states[5], Handle);
    OneStepMore(input, states, steps, Handle);
    states, steps := states + [s6], steps + [Handle];
    var s7 := Apply(input, s6, Flag);
    OneStepMore(input, states, steps, Flag);
    states, steps := states + [s7], steps + [Flag];
    OneStepMore(input, states, steps, Reply(true));
    states, steps := states + [Apply(input, s7, Reply(true))], steps + [Reply(true)];
  }

  /* ---- Every run ends, and ends with every frame answered ---- */

  function PhaseWork(phase: Phase): nat {
    match phase
    case Stopped => 0
    case Idle => 1
    case Replying(_, _) => 2
    case Cancelling(_, _) => 3
    case Spawning(_) => 4
    case Handling(_) => 5
  }

  function WorkLeft(input: seq<Frame>, s: State): int {
    6 * (|input| - s.next) + PhaseWork(s.phase) + 2 * |s.running| + |s.closing|
  }

  lemma Smaller(all: set<nat>, k: nat)
    ensures k in all ==> |all - {k}| == |all| - 1
    ensures |all + {k}| <= |all| + 1
  {
  }

  lemma StepWorks(input: seq<Frame>, s: State, step: Step)
    requires Enabled(input, s, step)
    ensures WorkLeft(input, Apply(input, s, step)) < WorkLeft(input, s)
  {
    match step {
      case Spawn => Smaller(s.running, s.phase.frame);
      case Answer(job, _, _) =>
        Smaller(s.running, job);
        Smaller(s.closing, job);
      case Release(job) => Smaller(s.closing, job);
      case _ =>
    }
  }

  lemma {:induction false} WorkDone(input: seq<Frame>, states: seq<State>, steps: seq<Step>, k: nat)
    requires IsRun(input, states, steps) && k < |states|
    ensures k + WorkLeft(input, states[k]) <= 6 * |input| + 1
  {
    if k > 0 {
      WorkDone(input, states, steps, k - 1);
      WorkStep(input, states, steps, k - 1);
    }
  }

  lemma WorkStep(input: seq<Frame>, states: seq<State>, steps: seq<Step>, k: nat)
    requires IsRun(input, states, steps) && k < |steps|
    ensures WorkLeft(input, states[k + 1]) < WorkLeft(input, states[k])
  {
    StepWorks(input, states[k], steps[k]);
  }

  /** No interleaving goes on for ever. */
  lemma RunsAreBounded(input: seq<Frame>, states: seq<State>, steps: seq<Step>)
    requires IsRun(input, states, steps)
    ensures |steps| <= 6 * |input| + 1
  {
    RunKeeps(input, states, steps, |steps|);
    WorkDone(input, states, steps, |steps|);
  }

  /** Steps in which every write succeeds and the input stays open. */
  predicate Smooth(step: Step) {
    !step.EndOfInput? && !step.ReadFailure? && (step.Reply? || step.Answer? ==> step.written)
  }

  lemma {:induction false} SmoothLosesNothing(input: seq<Frame>, states: seq<State>, steps: seq<Step>, k: nat)
    requires IsRun(input, states, steps) && k < |states|
    requires forall i | 0 <= i < |steps| :: Smooth(steps[i])
    ensures states[k].lost == {} && !states[k].phase.Stopped?
  {
    if k > 0 {
      SmoothLosesNothing(input, states, steps, k - 1);
      assert Smooth(steps[k - 1]);
    }
  }

  /** No smooth step is left to take. */
  ghost predicate Settled(input: seq<Frame>, s: State) {
    forall step: Step :: Smooth(step) ==> !Enabled(input, s, step)
  }

  lemma SettledIsDone(input: seq<Frame>, s: State)
    requires Invariant(input, s) && Settled(input, s) && !s.phase.Stopped?
    ensures s.phase.Idle? && s.next == |input| && s.running == {}
  {
    assert forall k | k in InHand(s) :: k + 1 == s.next;
    assert Smooth(Read) && Smooth(Handle) && Smooth(Flag) && Smooth(Spawn) && Smooth(Reply(true));
    if job :| job in s.running {
      assert job in Live(s) && Owns(input, s, job);
      assert Smooth(Answer(job, "", true)) && Enabled(input, s, Answer(job, "", true));
    }
  }

  /** However reader and workers interleave, a run of successful writes ends with exactly one response to every frame. */
  lemma EveryFrameAnsweredOnce(input: seq<Frame>, states: seq<State>, steps: seq<Step>, k: nat)
    requires IsRun(input, states, steps) && (forall i | 0 <= i < |steps| :: Smooth(steps[i]))
    requires Settled(input, states[|steps|]) && k < |input|
    ensures |states[|steps|].output| == |input|
    ensures exists r :: r in states[|steps|].output && r.origin == k && IsAnswerTo(input[k], r)
  {
    var s := states[|steps|];
    RunKeeps(input, states, steps, |steps|);
    SmoothLosesNothing(input, states, steps, |steps|);
    SettledIsDone(input, s);
    Conservation(input, states, steps, |steps|);
    assert Homes(s, k) == 1;
    AnsweredAll(s.output);
  }
}
