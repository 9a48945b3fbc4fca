/** Closing the inputs of a filtergraph: every producer closes its own input, and the last one to
    do so closes the control stream as well. Producers run concurrently. */
module FilterInputs {
  import opened FiniteSets

  // Where the producer of an input is in send_to_filter() with no frame.
  datatype Place = Outside | Counts | ClosesControl

  datatype State = State(
    sendFinished: seq<bool>,
    at: seq<Place>,
    counter: nat, // nb_inputs_finished_send
    // finish signals given to the queue: for every input, and for the control stream
    inputCloses: seq<nat>,
    controlCloses: nat)

  datatype Step = SendEnd(i: nat) | Count(i: nat) | CloseControl(i: nat)

  predicate Shaped(s: State, n: nat) {
    |s.sendFinished| == |s.at| == |s.inputCloses| == n
  }

  predicate Init(s: State, n: nat) {
    Shaped(s, n) && s.counter == 0 == s.controlCloses
    && forall i :: 0 <= i < n ==> !s.sendFinished[i] && s.at[i].Outside? && s.inputCloses[i] == 0
  }

  predicate Enabled(s: State, n: nat, step: Step)
    requires Shaped(s, n)
  {
    step.i < n
    && match step
       case SendEnd(i) => s.at[i].Outside?
       case Count(i) => s.at[i].Counts?
       case CloseControl(i) => s.at[i].ClosesControl?
  }

  function Next(s: State, n: nat, step: Step): State
    requires Shaped(s, n) && Enabled(s, n, step)
  {
    match step
    case SendEnd(i) =>
      if s.sendFinished[i] then s
      else s.(sendFinished := s.sendFinished[i := true],
              inputCloses := s.inputCloses[i := s.inputCloses[i] + 1],
              at := s.at[i := Counts])
    // the atomic increment gives back the old value
    case Count(i) =>
      s.(counter := s.counter + 1, at := s.at[i := if s.counter == n - 1 then ClosesControl else Outside])
    case CloseControl(i) => s.(controlCloses := s.controlCloses + 1, at := s.at[i := Outside])
  }

  // Inputs that have been counted, and producers about to close the control stream.
  ghost function Counted(s: State): set<nat>
    requires |s.at| == |s.sendFinished|
  {
    set i | 0 <= i < |s.at| && s.sendFinished[i] && !s.at[i].Counts?
  }

  ghost function Closers(s: State): set<nat> {
    set i | 0 <= i < |s.at| && s.at[i].ClosesControl?
  }

  ghost predicate Inv(s: State, n: nat) {
    && Shaped(s, n)
    && (forall i :: 0 <= i < n ==> s.inputCloses[i] == if s.sendFinished[i] then 1 else 0)
    && (forall i :: 0 <= i < n && !s.at[i].Outside? ==> s.sendFinished[i])
    // the counter is the number of completed finishes
    && s.counter == |Counted(s)|
    && s.controlCloses + |Closers(s)| == if n > 0 && s.counter == n then 1 else 0
  }

  lemma InitInv(s: State, n: nat)
    requires Init(s, n)
    ensures Inv(s, n)
  {
    assert Counted(s) == {} == Closers(s);
  }

  lemma SendEndKeeps(s: State, n: nat, i: nat)
    requires Inv(s, n) && Enabled(s, n, SendEnd(i))
    ensures Inv(Next(s, n, SendEnd(i)), n)
  {
    var t := Next(s, n, SendEnd(i));
    assert Counted(t) == Counted(s) && Closers(t) == Closers(s);
  }

  lemma CountedGrows(s: State, n: nat, i: nat)
    requires Inv(s, n) && Enabled(s, n, Count(i))
    ensures |Counted(Next(s, n, Count(i)))| == |Counted(s)| + 1 <= n
  {
    hide Closers;
    var t := Next(s, n, Count(i));
    assert Counted(t) == Counted(s) + {i};
    assert i !in Counted(s);
    CountBelow(Counted(t), n);
  }

  lemma ClosersGrow(s: State, n: nat, i: nat)
    requires Inv(s, n) && Enabled(s, n, Count(i))
    ensures |Closers(Next(s, n, Count(i)))| == |Closers(s)| + if s.counter == n - 1 then 1 else 0
  {
    hide Counted;
    var t := Next(s, n, Count(i));
    assert i !in Closers(s);
    if s.counter == n - 1 {
      assert Closers(t) == Closers(s) + {i};
    } else {
      assert Closers(t) == Closers(s);
    }
  }

  lemma CountKeeps(s: State, n: nat, i: nat)
    requires Inv(s, n) && Enabled(s, n, Count(i))
    ensures Inv(Next(s, n, Count(i)), n)
  {
    hide Counted, Closers;
    CountedGrows(s, n, i);
    ClosersGrow(s, n, i);
  }

  lemma CloseControlKeeps(s: State, n: nat, i: nat)
    requires Inv(s, n) && Enabled(s, n, CloseControl(i))
    ensures Inv(Next(s, n, CloseControl(i)), n)
  {
    var t := Next(s, n, CloseControl(i));
    assert Counted(t) == Counted(s);
    assert Closers(s) == Closers(t) + {i} && i !in Closers(t);
  }

  lemma NextInv(s: State, n: nat, step: Step)
    requires Inv(s, n) && Enabled(s, n, step)
    ensures Inv(Next(s, n, step), n)
  {
    match step
    case SendEnd(i) => SendEndKeeps(s, n, i);
    case Count(i) => CountKeeps(s, n, i);
    case CloseControl(i) => CloseControlKeeps(s, n, i);
  }

  ghost predicate IsRun(states: seq<State>, steps: seq<Step>, n: nat) {
    && |states| == |steps| + 1
    && Init(states[0], n)
    && (forall k :: 0 <= k < |states| ==> Shaped(states[k], n))
    && (forall k :: 0 <= k < |steps| ==> Enabled(states[k], n, steps[k]) && states[k + 1] == Next(states[k], n, steps[k]))
  }

  lemma {:induction false} RunInv(states: seq<State>, steps: seq<Step>, n: nat, k: nat)
    requires IsRun(states, steps, n) && k < |states|
    ensures Inv(states[k], n)
  {
    if k == 0 {
      InitInv(states[0], n);
    } else {
      RunInv(states, steps, n, k - 1);
      assert Enabled(states[k - 1], n, steps[k - 1]);
      NextInv(states[k - 1], n, steps[k - 1]);
    }
  }

  // However the producers are interleaved: no input and no control stream is closed twice, the
  // control stream only after every input, and when all producers are done it has been closed.
  lemma ControlClosedOnce(states: seq<State>, steps: seq<Step>, n: nat, k: nat)
    requires IsRun(states, steps, n) && k < |states|
    ensures var s := states[k];
      && s.controlCloses <= 1
      && (forall i :: 0 <= i < n ==> s.inputCloses[i] <= 1)
      && (s.controlCloses == 1 ==> forall i :: 0 <= i < n ==> s.inputCloses[i] == 1)
      && (n > 0 && (forall i :: 0 <= i < n ==> s.sendFinished[i] && s.at[i].Outside?) ==> s.controlCloses == 1)
  {
    RunInv(states, steps, n, k);
    var s := states[k];
    CountBelow(Counted(s), n);
    if s.controlCloses == 1 {
      forall i | 0 <= i < n
        ensures s.inputCloses[i] == 1
      {
        assert i in Counted(s);
      }
    }
    if forall i :: 0 <= i < n ==> s.sendFinished[i] && s.at[i].Outside? {
      assert Closers(s) == {};
      assert Counted(s) == Range(n);
    }
  }

  // Once a producer has begun to close its input, the input stays closed.
  lemma {:induction false} EndStays(states: seq<State>, steps: seq<Step>, n: nat, m: nat, k: nat)
    requires IsRun(states, steps, n) && m < k < |states| && steps[m].SendEnd?
    ensures steps[m].i < n && states[k].sendFinished[steps[m].i]
  {
    RunInv(states, steps, n, k - 1);
    assert Enabled(states[k - 1], n, steps[k - 1]) && states[k] == Next(states[k - 1], n, steps[k - 1]);
    RunInv(states, steps, n, k);
    if m < k - 1 {
      EndStays(states, steps, n, m, k - 1);
    }
  }

  // How many steps a producer has left to take.
  function StepsLeft(p: Place): nat {
    match p case Outside => 0 case ClosesControl => 1 case Counts => 2
  }

  // It never has to wait for the others, and is done after two steps.
  lemma ProducerGoesOn(s: State, n: nat, i: nat)
    requires Inv(s, n) && i < n && !s.at[i].Outside?
    ensures var step := if s.at[i].Counts? then Count(i) else CloseControl(i);
      Enabled(s, n, step) && StepsLeft(Next(s, n, step).at[i]) < StepsLeft(s.at[i])
  {
  }

  // When every producer has been told to close its input, and is done with it, every input and the
  // control stream have been closed exactly once.
  lemma AllClosedInTheEnd(states: seq<State>, steps: seq<Step>, n: nat, k: nat)
    requires IsRun(states, steps, n) && k < |states| && n > 0
    requires forall i :: 0 <= i < n ==> SendEnd(i) in steps[..k] && states[k].at[i].Outside?
    ensures states[k].controlCloses == 1 && forall i :: 0 <= i < n ==> states[k].inputCloses[i] == 1
  {
    RunInv(states, steps, n, k);
    forall i | 0 <= i < n
      ensures states[k].sendFinished[i]
    {
      assert SendEnd(i) in steps[..k];
      var m :| 0 <= m < |steps[..k]| && steps[..k][m] == SendEnd(i);
      EndStays(states, steps, n, m, k);
    }
    ControlClosedOnce(states, steps, n, k);
  }
}
