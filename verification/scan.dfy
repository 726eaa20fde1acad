/** The visitor protocol of a bounded range scan, stated without a cursor:
    which entries the visitor is handed, when it stops, what is returned, and
    when the engine's iteration error aborts the scan. */
module Scan {
  import opened Bytes
  import opened Engine

  /** An error value as the store passes it on: from the engine's I/O or from
      a caller's callback, never translated. */
  datatype Err = Err(msg: string)

  /** What a store operation ends in: nil, an error, or the abort the store
      raises when the engine reports an iteration error. */
  datatype Status = Nil | Failed(err: Err) | Fatal

  /** One visitor call's answer: its caller's state afterwards, whether to go
      on, and an optional error. */
  datatype Step<S> = Step(state: S, cont: bool, err: Option<Err>)

  /** The visitor: the caller's state and one entry in, one Step out. */
  type Visitor<!S> = (S, Key, Value) -> Step<S>

  /** A visitor answer that lets the scan go on. */
  predicate Continues<S>(st: Step<S>) {
    st.err.None? && st.cont
  }

  /** The outcome of handing entries to a visitor: the status, the caller's
      final state, how many calls were made, and whether the visitor itself
      ended the scan. */
  datatype Run<S> = Run(status: Status, state: S, calls: nat, stopped: bool)

  /** The caller's state after the first `n` entries of `w` were visited. */
  function Thread<S>(w: seq<Entry>, visit: Visitor<S>, s: S, n: nat): S
    requires n <= |w|
  {
    if n == 0 then s
    else Thread(w[1..], visit, visit(s, w[0].key, w[0].value).state, n - 1)
  }

  /** The visitor's answer for entry `j`, given the earlier calls. */
  function StepAt<S>(w: seq<Entry>, visit: Visitor<S>, s: S, j: nat): Step<S>
    requires j < |w|
  {
    visit(Thread(w, visit, s, j), w[j].key, w[j].value)
  }

  /** Visiting one more entry moves the caller's state on by that call's answer. */
  lemma {:induction false} ThreadNext<S>(w: seq<Entry>, visit: Visitor<S>, s: S, n: nat)
    requires n < |w|
    ensures Thread(w, visit, s, n + 1) == StepAt(w, visit, s, n).state
  {
    if n > 0 {
      ThreadNext(w[1..], visit, visit(s, w[0].key, w[0].value).state, n - 1);
    }
  }

  /** Hands the entries of `w` to the visitor in order until it errs, says
      stop, or `w` runs out. */
  function Drive<S>(w: seq<Entry>, visit: Visitor<S>, s: S): Run<S> {
    if w == [] then Run(Nil, s, 0, false)
    else
      var st := visit(s, w[0].key, w[0].value);
      if st.err.Some? then Run(Failed(st.err.value), st.state, 1, true)
      else if !st.cont then Run(Nil, st.state, 1, true)
      else
        var r := Drive(w[1..], visit, st.state);
        r.(calls := r.calls + 1)
  }

  /** The visitor protocol. A run makes at most one call per entry, never
      aborts, and leaves the caller's state as its calls made it. Every call
      before the last one continued; a run the visitor ended stopped at the
      first call that did not continue and returns that call's error, or nil
      when it only said stop; a run the visitor did not end handed over every
      entry and returns nil. */
  lemma {:induction false} DriveProtocol<S>(w: seq<Entry>, visit: Visitor<S>, s: S)
    ensures var r := Drive(w, visit, s);
            && r.calls <= |w|
            && r.status != Fatal
            && (r.stopped ==> r.calls >= 1)
            && (!r.stopped ==> r.calls == |w| && r.status == Nil)
            && r.state == Thread(w, visit, s, r.calls)
    ensures var r := Drive(w, visit, s);
            forall j :: 0 <= j < |w| && j + 1 < r.calls ==> Continues(StepAt(w, visit, s, j))
    ensures var r := Drive(w, visit, s);
            r.stopped ==> !Continues(StepAt(w, visit, s, r.calls - 1))
    ensures var r := Drive(w, visit, s);
            r.stopped ==> r.status == (var st := StepAt(w, visit, s, r.calls - 1);
                                       if st.err.Some? then Failed(st.err.value) else Nil)
    ensures var r := Drive(w, visit, s);
            !r.stopped ==> forall j :: 0 <= j < |w| ==> Continues(StepAt(w, visit, s, j))
  {
    if w != [] {
      var st := visit(s, w[0].key, w[0].value);
      if Continues(st) {
        DriveProtocol(w[1..], visit, st.state);
        forall j | 1 <= j < |w| ensures StepAt(w, visit, s, j) == StepAt(w[1..], visit, st.state, j - 1) {
        }
      }
    }
  }

  /** A scan has handed the first `n` entries of `w` to the visitor, each call
      continued, and the caller's state is `s`. */
  ghost predicate Reached<S>(w: seq<Entry>, visit: Visitor<S>, s0: S, n: nat, s: S) {
    && n <= |w|
    && s == Thread(w, visit, s0, n)
    && forall j :: 0 <= j < n ==> Continues(StepAt(w, visit, s0, j))
  }

  /** A call that continues moves the scan one entry on. */
  lemma ReachedNext<S>(w: seq<Entry>, visit: Visitor<S>, s0: S, n: nat, s: S)
    requires Reached(w, visit, s0, n, s) && n < |w|
    requires Continues(visit(s, w[n].key, w[n].value))
    ensures Reached(w, visit, s0, n + 1, visit(s, w[n].key, w[n].value).state)
  {
    ThreadNext(w, visit, s0, n);
  }

  /** A run over `w` is its first `n` continuing calls followed by a run over the rest. */
  lemma {:induction false} DriveFromReached<S>(w: seq<Entry>, visit: Visitor<S>, s0: S, n: nat, s: S)
    requires Reached(w, visit, s0, n, s)
    ensures Drive(w, visit, s0) == Bump(Drive(w[n..], visit, s), n)
  {
    if n == 0 {
      assert w[0..] == w;
    } else {
      var s1 := visit(s0, w[0].key, w[0].value).state;
      assert Continues(StepAt(w, visit, s0, 0));
      forall j | 0 <= j < n - 1 ensures Continues(StepAt(w[1..], visit, s1, j)) {
        assert StepAt(w, visit, s0, j + 1) == StepAt(w[1..], visit, s1, j);
      }
      DriveFromReached(w[1..], visit, s1, n - 1, s);
      assert w[1..][n - 1..] == w[n..];
    }
  }

  /** A run that made `n` more calls before it. */
  function Bump<S>(r: Run<S>, n: nat): Run<S> {
    r.(calls := r.calls + n)
  }

  /** How many times the cursor's validity is tested: once before each visit,
      and once more when the visitor did not end the scan itself. */
  function Checks<S>(r: Run<S>): nat {
    if r.stopped then r.calls else r.calls + 1
  }

  /** What handing the window `w` to a visitor ends in: the visitor is run
      over `w`; when the engine reports an iteration error at validity check
      number `fault`, and the scan gets that far, the scan aborts with Fatal,
      leaving the caller's state as the visits before it made it. */
  function Outcome<S>(w: seq<Entry>, fault: Option<nat>, visit: Visitor<S>, s0: S): (r: (Status, S))
    ensures fault.None? ==> r.0 != Fatal
  {
    var run := Drive(w, visit, s0);
    DriveProtocol(w, visit, s0);
    if fault.Some? && fault.value < Checks(run) then (Fatal, Thread(w, visit, s0, fault.value))
    else (run.status, run.state)
  }

  /** The meaning of a range scan over content `e`: the outcome of visiting
      the window of keys in range. */
  function IterateSpec<S>(e: seq<Entry>, fk: Key, lk: Key, inc: bool, fault: Option<nat>,
                          visit: Visitor<S>, s0: S): (r: (Status, S))
    ensures fault.None? ==> r.0 != Fatal
  {
    Outcome(Window(e, fk, lk, inc), fault, visit, s0)
  }

  /** An engine iteration error never shows up as a shorter scan: a scan that
      does not abort returns exactly what the error-free scan returns. */
  lemma FatalNeverTruncates<S>(e: seq<Entry>, fk: Key, lk: Key, inc: bool, fault: Option<nat>,
                               visit: Visitor<S>, s0: S)
    ensures var r := IterateSpec(e, fk, lk, inc, fault, visit, s0);
            r.0 != Fatal ==> r == IterateSpec(e, fk, lk, inc, None, visit, s0)
  {
  }

  /** Where the engine's iteration error strikes at the check the scan has
      reached, the scan aborts with the caller's state as it was. */
  lemma ScanAborts<S>(w: seq<Entry>, fault: Option<nat>, visit: Visitor<S>, s0: S, n: nat, s: S)
    requires Reached(w, visit, s0, n, s) && fault == Some(n)
    ensures Outcome(w, fault, visit, s0) == (Fatal, s)
  {
    DriveFromReached(w, visit, s0, n, s);
    DriveProtocol(w[n..], visit, s);
  }

  /** A scan that handed over every entry in range, with no iteration error
      on the way, returns nil and the caller's state. */
  lemma ScanExhausted<S>(w: seq<Entry>, fault: Option<nat>, visit: Visitor<S>, s0: S, s: S)
    requires Reached(w, visit, s0, |w|, s) && (fault.None? || fault.value > |w|)
    ensures Outcome(w, fault, visit, s0) == (Nil, s)
  {
    DriveFromReached(w, visit, s0, |w|, s);
    assert w[|w|..] == [];
  }

  /** When the visitor errs or says stop on entry `n`, the scan ends there:
      it returns that call's error, or nil, and the state that call left. */
  lemma ScanEndedByVisitor<S>(w: seq<Entry>, fault: Option<nat>, visit: Visitor<S>, s0: S, n: nat, s: S)
    requires Reached(w, visit, s0, n, s) && n < |w| && (fault.None? || fault.value > n)
    requires !Continues(visit(s, w[n].key, w[n].value))
    ensures var st := visit(s, w[n].key, w[n].value);
            Outcome(w, fault, visit, s0) == (if st.err.Some? then Failed(st.err.value) else Nil, st.state)
  {
    DriveFromReached(w, visit, s0, n, s);
    assert w[n..][0] == w[n];
  }
}
