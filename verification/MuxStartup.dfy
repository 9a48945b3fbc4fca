/** When muxers are initialised and their threads started: once each, when all their streams are
    ready, and not before the SDP is written if one is wanted. */
module MuxStartup {
  import opened FiniteSets

  // What happens to muxers, in the order in which it happens.
  datatype Event = InitMux(i: nat) | WriteSdp | StartTask(i: nat)

  // Each thing happens at most once; a task starts after its muxer's initialisation and, with an
  // SDP, after that of all muxers and the writing of the SDP.
  ghost predicate LogOk(log: seq<Event>, n: nat, sdp: bool) {
    && (forall a, b :: 0 <= a < b < |log| ==> log[a] != log[b])
    && (forall k :: 0 <= k < |log| && log[k].StartTask? ==> MayStart(log[..k], n, sdp, log[k].i))
    && (forall k :: 0 <= k < |log| && log[k].WriteSdp? ==> AllInited(log[..k], n))
  }

  ghost predicate AllInited(log: seq<Event>, n: nat) {
    forall j :: 0 <= j < n ==> InitMux(j) in log
  }

  ghost predicate MayStart(log: seq<Event>, n: nat, sdp: bool, i: nat) {
    InitMux(i) in log && (sdp ==> WriteSdp in log && AllInited(log, n))
  }

  lemma LogAppend(log: seq<Event>, n: nat, sdp: bool, e: Event)
    requires LogOk(log, n, sdp) && e !in log
    requires e.StartTask? ==> MayStart(log, n, sdp, e.i)
    requires e.WriteSdp? ==> AllInited(log, n)
    ensures LogOk(log + [e], n, sdp)
  {
    var all := log + [e];
    forall k | 0 <= k < |all|
      ensures all[k].StartTask? ==> MayStart(all[..k], n, sdp, all[k].i)
      ensures all[k].WriteSdp? ==> AllInited(all[..k], n)
    {
      assert all[..k] == if k < |log| then log[..k] else log;
      assert k < |log| ==> all[k] == log[k];
    }
  }

  // The log, and what can be found in it.
  datatype Record = Record(log: seq<Event>, inits: set<nat>, starts: set<nat>, sdpDone: bool)

  const NOTHING := Record([], {}, {}, false)

  ghost predicate RecordOk(r: Record, n: nat, sdp: bool) {
    LogOk(r.log, n, sdp) && Indexed(r)
  }

  ghost predicate Indexed(r: Record) {
    && (forall i: nat :: InitMux(i) in r.log <==> i in r.inits)
    && (forall i: nat :: StartTask(i) in r.log <==> i in r.starts)
    && (WriteSdp in r.log <==> r.sdpDone)
  }

  function Also(r: Record, e: Event): Record {
    match e
    case InitMux(i) => Record(r.log + [e], r.inits + {i}, r.starts, r.sdpDone)
    case StartTask(i) => Record(r.log + [e], r.inits, r.starts + {i}, r.sdpDone)
    case WriteSdp => Record(r.log + [e], r.inits, r.starts, true)
  }

  lemma NothingOk(n: nat, sdp: bool)
    ensures RecordOk(NOTHING, n, sdp)
  {
  }

  lemma IndexAppend(r: Record, e: Event)
    requires Indexed(r)
    ensures Indexed(Also(r, e))
  {
    assert forall f :: f in r.log + [e] <==> f in r.log || f == e;
  }

  lemma AlsoOk(r: Record, n: nat, sdp: bool, e: Event)
    requires RecordOk(r, n, sdp)
    requires match e
             case InitMux(i) => i !in r.inits
             case WriteSdp => !r.sdpDone && forall j :: 0 <= j < n ==> j in r.inits
             case StartTask(i) => i !in r.starts && i in r.inits
                                  && (sdp ==> r.sdpDone && forall j :: 0 <= j < n ==> j in r.inits)
    ensures RecordOk(Also(r, e), n, sdp)
  {
    LogAppend(r.log, n, sdp, e) by {
      hide LogOk;
      assert e !in r.log;
    }
    IndexAppend(r, e);
  }

  // The outcome of the callbacks that one call may make: the muxer's init, writing the SDP, and
  // starting and flushing each muxer.
  datatype Outcomes = Outcomes(init: bool, sdp: bool, start: seq<bool>)

  // A set below k has k elements exactly if it has all numbers below k.
  lemma AllReady(s: set<nat>, k: nat)
    requires forall i :: i in s ==> i < k
    ensures |s| <= k && (|s| == k <==> forall i :: 0 <= i < k ==> i in s)
  {
    CountBelow(s, k);
    if forall i :: 0 <= i < k ==> i in s {
      assert s == Range(k);
    }
  }

  class MuxStarter {
    const n: nat
    const sdp: bool
    const nbStreams: seq<nat>

    var started: bool // the scheduler has left its initial state
    var nbStreamsReady: seq<nat>
    var nbMuxReady: nat

    ghost var done: Record
    ghost var inited: set<nat> // muxers initialised with success
    ghost var failed: bool // some callback has failed

    ghost predicate Valid()
      reads this
    {
      && |nbStreams| == |nbStreamsReady| == n
      && (forall i :: 0 <= i < n ==> nbStreamsReady[i] <= nbStreams[i])
      && RecordOk(done, n, sdp)
      && (!started ==> done == NOTHING)
      && (forall i :: i in done.inits ==> i < n && nbStreamsReady[i] == nbStreams[i])
      && inited <= done.inits && nbMuxReady == |inited|
      && (!sdp ==> done.starts <= inited && !done.sdpDone)
      && (sdp && nbMuxReady < n ==> !done.sdpDone && done.starts == {})
      && (!failed ==> done.inits == inited)
    }

    // Nobody was let down, and everybody has been seen to: every muxer whose streams are ready
    // is initialised, and runs unless it has to wait for the SDP.
    ghost predicate UpToDate()
      reads this
      requires Valid()
    {
      && (forall i :: 0 <= i < n && nbStreamsReady[i] == nbStreams[i] ==> i in inited)
      && AllStarted()
    }

    ghost predicate AllStarted()
      reads this
    {
      forall i :: 0 <= i < n ==> (i in done.starts <==> if sdp then nbMuxReady == n else i in inited)
    }

    constructor (nbStreams: seq<nat>, sdp: bool)
      ensures Valid() && this.nbStreams == nbStreams && this.sdp == sdp && n == |nbStreams|
      ensures !started && !failed && done == NOTHING && inited == {}
    {
      this.n := |nbStreams|;
      this.sdp := sdp;
      this.nbStreams := nbStreams;
      started := false;
      nbStreamsReady := seq(|nbStreams|, _ => 0);
      nbMuxReady := 0;
      done, inited, failed := NOTHING, {}, false;
      NothingOk(|nbStreams|, sdp);
    }

    // task_start() asserts that the thread is not running: i is not among the started.
    method MuxTaskStart(i: nat, startOk: bool) returns (ok: bool)
      requires Valid() && i < n && started
      requires i !in done.starts && i in inited && (sdp ==> nbMuxReady == n && done.sdpDone)
      modifies this`done, this`failed
      ensures Valid()
      ensures done == Also(old(done), StartTask(i)) && failed == (old(failed) || !ok) && ok == startOk
    {
      hide RecordOk;
      CountBelow(inited, n);
      AlsoOk(done, n, sdp, StartTask(i));
      done := Also(done, StartTask(i));
      ok := startOk;
      failed := failed || !ok;
    }

    method StartAll(startOk: seq<bool>) returns (ok: bool)
      requires Valid() && started && sdp && |startOk| == n
      requires done.sdpDone && nbMuxReady == n && done.starts == {}
      modifies this`done, this`failed
      ensures Valid()
      ensures done.inits == old(done.inits) && done.sdpDone && old(done.log) <= done.log
      ensures failed == (old(failed) || !ok)
      ensures ok <==> forall j :: 0 <= j < n ==> startOk[j]
      ensures ok ==> forall j :: 0 <= j < n ==> j in done.starts
    {
      hide RecordOk;
      CountBelow(inited, n);
      for k := 0 to n
        invariant Valid() && failed == old(failed)
        invariant done.inits == old(done.inits) && done.sdpDone && old(done.log) <= done.log
        invariant forall j :: j in done.starts <==> 0 <= j < k
        invariant forall j :: 0 <= j < k ==> startOk[j]
      {
        ok := MuxTaskStart(k, startOk[k]);
        if !ok {
          return;
        }
      }
      return true;
    }

    method MuxInit(i: nat, o: Outcomes) returns (ok: bool)
      requires Valid() && started && i < n && |o.start| == n
      requires nbStreamsReady[i] == nbStreams[i] && i !in done.inits
      modifies this`done, this`failed, this`inited, this`nbMuxReady
      ensures Valid()
      ensures done.inits == old(done.inits) + {i} && old(done.log) <= done.log
      ensures failed == (old(failed) || !ok)
      ensures ok <==> o.init && RestOk(i, o)
      ensures inited == old(inited) + if o.init then {i} else {}
      ensures ok && old(AllStarted()) ==> AllStarted()
    {
      hide RecordOk, RestOk;
      Initialise(i, o.init);
      if !o.init {
        return false;
      }
      ok := StartOrWait(i, o);
    }

    // The muxer's own init callback, and counting it as ready.
    method Initialise(i: nat, initOk: bool)
      requires Valid() && started && i < n
      requires nbStreamsReady[i] == nbStreams[i] && i !in done.inits
      modifies this`done, this`failed, this`inited, this`nbMuxReady
      ensures Valid()
      ensures done == Also(old(done), InitMux(i)) && failed == (old(failed) || !initOk)
      ensures inited == old(inited) + if initOk then {i} else {}
      ensures i !in done.starts && !old(done).sdpDone && (sdp ==> done.starts == {})
    {
      hide RecordOk;
      CountBelow(inited + {i}, n);
      AlsoOk(done, n, sdp, InitMux(i));
      done := Also(done, InitMux(i));
      if initOk {
        inited := inited + {i};
        nbMuxReady := nbMuxReady + 1;
      } else {
        failed := true;
      }
    }

    // The callbacks after the muxer's init that matter: with an SDP, only the last muxer has any.
    predicate RestOk(i: nat, o: Outcomes)
      reads this`nbMuxReady
      requires i < n && |o.start| == n
    {
      if sdp then nbMuxReady < n || (o.sdp && forall j :: 0 <= j < n ==> o.start[j]) else o.start[i]
    }

    // The rest of mux_init(), once the muxer is initialised.
    method StartOrWait(i: nat, o: Outcomes) returns (ok: bool)
      requires Valid() && started && i in inited && |o.start| == n
      requires !done.sdpDone && i !in done.starts && (sdp ==> done.starts == {})
      modifies this`done, this`failed
      ensures Valid()
      ensures done.inits == old(done.inits) && old(done.log) <= done.log
      ensures failed == (old(failed) || !ok)
      ensures ok <==> RestOk(i, o)
      ensures ok && (sdp || forall j :: 0 <= j < n && j != i ==> (j in old(done.starts) <==> j in inited)) ==> AllStarted()
    {
      hide RecordOk;
      CountBelow(inited, n);
      if sdp {
        if nbMuxReady < n {
          return true;
        }
        if !o.sdp {
          failed := true;
          return false;
        }
        AlsoOk(done, n, sdp, WriteSdp);
        done := Also(done, WriteSdp);
        // this was the last muxer, and the SDP has held back the threads of all
        ok := StartAll(o.start);
      } else {
        ok := MuxTaskStart(i, o.start[i]);
      }
    }

    // sch_mux_stream_ready(), with the lock held
    method StreamReady(i: nat, o: Outcomes) returns (ok: bool)
      requires Valid() && i < n && |o.start| == n
      requires nbStreamsReady[i] < nbStreams[i]
      modifies this`nbStreamsReady, this`done, this`failed, this`inited, this`nbMuxReady
      ensures Valid()
      ensures nbStreamsReady == old(nbStreamsReady)[i := old(nbStreamsReady)[i] + 1]
      ensures old(done.log) <= done.log && failed == (old(failed) || !ok)
      ensures !started ==> done == old(done) && ok
      // it fails only if a callback does
      ensures ok <==> (started && nbStreamsReady[i] == nbStreams[i] ==> o.init && RestOk(i, o))
      // initialised now, if it can be
      ensures i in done.inits <==> started && nbStreamsReady[i] == nbStreams[i]
      ensures old(started && UpToDate()) && ok ==> UpToDate()
    {
      hide RecordOk;
      nbStreamsReady := nbStreamsReady[i := nbStreamsReady[i] + 1];
      ok := true;
      if nbStreamsReady[i] == nbStreams[i] && started {
        ok := MuxInit(i, o);
      }
    }

    // Muxer i, if it is ready beforehand, has no callback that fails; the SDP and the threads of all
    // are up to the last muxer.
    predicate StartsWell(i: nat, o: seq<Outcomes>)
      reads this`nbStreamsReady
      requires |nbStreamsReady| == n == |nbStreams| && |o| == n && i < n && |o[i].start| == n
    {
      nbStreamsReady[i] == nbStreams[i] ==>
        && o[i].init
        && if !sdp then o[i].start[i]
           else (i == n - 1 && forall j :: 0 <= j < n ==> nbStreamsReady[j] == nbStreams[j]) ==>
             o[i].sdp && forall j :: 0 <= j < n ==> o[i].start[j]
    }

    lemma NotReadyIsWell(i: nat, o: seq<Outcomes>)
      requires Valid() && i < n && |o| == n && |o[i].start| == n
      ensures nbStreamsReady[i] < nbStreams[i] ==> StartsWell(i, o)
    {
      hide RecordOk;
    }

    // After muxer i has been dealt with, and the ready ones before it.
    lemma WellOrNot(i: nat, o: seq<Outcomes>)
      requires Valid() && i < n && |o| == n && |o[i].start| == n
      requires nbStreamsReady[i] == nbStreams[i] && (i in inited <==> o[i].init)
      requires forall j :: j in done.inits ==> j <= i
      requires forall j :: 0 <= j < i && nbStreamsReady[j] == nbStreams[j] ==> j in inited
      ensures StartsWell(i, o) <==> o[i].init && RestOk(i, o[i])
    {
      hide RecordOk;
      AllReady(inited, i + 1);
      assert nbMuxReady == n ==> forall j :: 0 <= j < n ==> j in done.inits;
    }

    // The part of sch_start() that deals with the muxers whose streams were ready beforehand.
    // The tasks that call StreamReady() are started after it.
    method StartReadyMuxers(o: seq<Outcomes>) returns (ok: bool)
      requires Valid() && !started && !failed
      requires |o| == n && forall i :: 0 <= i < n ==> |o[i].start| == n
      modifies this`started, this`done, this`failed, this`inited, this`nbMuxReady
      ensures Valid() && started && failed == !ok
      ensures ok <==> forall i :: 0 <= i < n ==> StartsWell(i, o)
      ensures ok ==> UpToDate()
    {
      hide RecordOk, StartsWell, RestOk;
      started := true;
      for i := 0 to n
        invariant Valid() && started && !failed && AllStarted()
        invariant forall j :: j in done.inits ==> j < i
        invariant forall j :: 0 <= j < i && nbStreamsReady[j] == nbStreams[j] ==> j in inited
        invariant forall j :: 0 <= j < i ==> StartsWell(j, o)
        invariant nbStreamsReady == old(nbStreamsReady)
      {
        NotReadyIsWell(i, o);
        if nbStreamsReady[i] == nbStreams[i] {
          ok := MuxInit(i, o[i]);
          WellOrNot(i, o);
          if !ok {
            return;
          }
        }
      }
      return true;
    }
  }
}
