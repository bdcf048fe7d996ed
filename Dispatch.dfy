/**
  The pure specification of the not-enabled handler and of the two call
  macros, CALL_BASECRYPTLIB and CALL_VOID_BASECRYPTLIB.

  A call acts on a Trace: the debug log the handler writes to, and the names
  of the underlying BaseCryptLib/TlsLib functions that were invoked, in order.
*/
module Dispatch {
  import opened Pcd

  /** The DEBUG print level the handler uses. */
  datatype Severity = DebugError

  /** One DEBUG line "[<caller>] Function <name>() is not enabled". */
  datatype Diagnostic = Diagnostic(severity: Severity, callerBaseName: string, functionName: string)

  /**
    What is fixed when the driver is built: its PCD database, whether
    ASSERT halts (a DEBUG build) and the driver's gEfiCallerBaseName.
  */
  datatype Build = Build(pcd: PcdDatabase, debug: bool, callerBaseName: string)

  /** What the calls leave behind that a client can observe. */
  datatype Trace = Trace(log: seq<Diagnostic>, invoked: seq<string>)

  /** A BaseCryptLib/TlsLib function: its name (`#Function`) and its behaviour. */
  datatype Service<!A, R> = Service(name: string, impl: A -> R)

  /** How a call ends: it returns a value, or the handler's ASSERT halted the driver. */
  datatype Outcome<R> = Returned(value: R) | Halted

  /** The handler's effect: the new trace and whether execution halted. */
  datatype Handled = Handled(trace: Trace, halted: bool)

  /** The result of one call through a macro. */
  datatype Step<R> = Step(outcome: Outcome<R>, trace: Trace)

  /** The diagnostic the handler prints for `functionName`. */
  function NotEnabledDiagnostic(b: Build, functionName: string): Diagnostic {
    Diagnostic(DebugError, b.callerBaseName, functionName)
  }

  /**
    BaseCryptLibServiceNotEnabled: append exactly one error diagnostic, then
    ASSERT_EFI_ERROR (EFI_UNSUPPORTED), which halts exactly in a DEBUG build.
  */
  function ServiceNotEnabled(b: Build, t: Trace, functionName: string): (h: Handled)
    ensures |h.trace.log| == |t.log| + 1 && h.trace.log[..|t.log|] == t.log
    ensures h.trace.log[|t.log|] == NotEnabledDiagnostic(b, functionName)
    ensures h.trace.invoked == t.invoked
    ensures h.halted <==> b.debug
  {
    Handled(Trace(t.log + [NotEnabledDiagnostic(b, functionName)], t.invoked), b.debug)
  }

  /** `Function Args`: the underlying function runs and nothing is logged. */
  function Invoke(t: Trace, name: string): (t': Trace)
    ensures t'.log == t.log
    ensures |t'.invoked| == |t.invoked| + 1 && t'.invoked[..|t.invoked|] == t.invoked
    ensures t'.invoked[|t.invoked|] == name
  {
    Trace(t.log, t.invoked + [name])
  }

  /**
    CALL_BASECRYPTLIB (Function, Args, ErrorReturnValue): an enabled call is
    the direct call of the function; a disabled one runs the handler with the
    function's name and yields ErrorReturnValue unless the handler halted.
  */
  function Call<A, R>(b: Build, t: Trace, f: Service<A, R>, args: A, errorReturnValue: R): (s: Step<R>)
    requires Declared(b.pcd, f.name)
    ensures IsEnabled(b.pcd, f.name) ==>
      s.outcome == Returned(f.impl(args)) && s.trace == Invoke(t, f.name)
    ensures !IsEnabled(b.pcd, f.name) ==>
      s.trace == ServiceNotEnabled(b, t, f.name).trace &&
      s.outcome == (if b.debug then Halted else Returned(errorReturnValue))
  {
    if IsEnabled(b.pcd, f.name) then
      Step(Returned(f.impl(args)), Invoke(t, f.name))
    else
      var h := ServiceNotEnabled(b, t, f.name);
      Step(if h.halted then Halted else Returned(errorReturnValue), h.trace)
  }

  /**
    CALL_VOID_BASECRYPTLIB (Function, Args): as Call, but the function has
    no result and there is no ErrorReturnValue.
  */
  function CallVoid<A>(b: Build, t: Trace, f: Service<A, ()>, args: A): (s: Step<()>)
    requires Declared(b.pcd, f.name)
    ensures s.outcome.Halted? <==> !IsEnabled(b.pcd, f.name) && b.debug
    ensures IsEnabled(b.pcd, f.name) ==> s.trace == Invoke(t, f.name)
    ensures !IsEnabled(b.pcd, f.name) ==> s.trace == ServiceNotEnabled(b, t, f.name).trace
  {
    if IsEnabled(b.pcd, f.name) then
      var _ := f.impl(args);
      Step(Returned(()), Invoke(t, f.name))
    else
      var h := ServiceNotEnabled(b, t, f.name);
      Step(if h.halted then Halted else Returned(()), h.trace)
  }

  /**
    An enabled call is transparent: it returns what the function returns for
    the same arguments, records exactly that one invocation and logs nothing.
  */
  lemma EnabledCallIsTransparent<A, R>(b: Build, t: Trace, f: Service<A, R>, args: A, errorReturnValue: R)
    requires Declared(b.pcd, f.name) && IsEnabled(b.pcd, f.name)
    ensures Call(b, t, f, args, errorReturnValue).outcome == Returned(f.impl(args))
    ensures Call(b, t, f, args, errorReturnValue).trace.log == t.log
    ensures Call(b, t, f, args, errorReturnValue).trace.invoked == t.invoked + [f.name]
  {
  }

  /**
    A disabled call never invokes the function, logs exactly one error
    diagnostic naming it, and yields exactly the ErrorReturnValue in a
    non-halting build (a DEBUG build halts instead).
  */
  lemma DisabledCallReturnsSentinel<A, R>(b: Build, t: Trace, f: Service<A, R>, args: A, errorReturnValue: R)
    requires Declared(b.pcd, f.name) && !IsEnabled(b.pcd, f.name)
    ensures Call(b, t, f, args, errorReturnValue).trace.invoked == t.invoked
    ensures Call(b, t, f, args, errorReturnValue).trace.log
      == t.log + [Diagnostic(DebugError, b.callerBaseName, f.name)]
    ensures !b.debug ==> Call(b, t, f, args, errorReturnValue).outcome == Returned(errorReturnValue)
    ensures b.debug ==> Call(b, t, f, args, errorReturnValue).outcome == Halted
  {
  }

  /**
    The two branches of a void call exclude each other: exactly one of the
    function and the handler runs, once.
  */
  lemma VoidCallBranchesExclusive<A>(b: Build, t: Trace, f: Service<A, ()>, args: A)
    requires Declared(b.pcd, f.name)
    ensures var s := CallVoid(b, t, f, args);
      (s.trace.invoked == t.invoked + [f.name] && s.trace.log == t.log) !=
      (s.trace.invoked == t.invoked && s.trace.log == t.log + [NotEnabledDiagnostic(b, f.name)])
  {
  }

  /**
    A void call behaves as a non-void call whose result type has one value:
    the same trace, and Halted exactly when that call halts.
  */
  lemma CallVoidIsUnitCall<A>(b: Build, t: Trace, f: Service<A, ()>, args: A)
    requires Declared(b.pcd, f.name)
    ensures CallVoid(b, t, f, args) == Call(b, t, f, args, ())
  {
    var u := f.impl(args);
    assert u == ();
  }

  /** One call of a service made by a client of the protocol. */
  datatype Request<!A, R> = Request(service: Service<A, R>, args: A, errorReturnValue: R)

  /**
    The outcomes of a sequence of calls and the trace they leave. A
    "non-halting build" below is one whose `debug` is false: the handler
    prints its diagnostic and its ASSERT returns.
  */
  datatype Session<R> = Session(outcomes: seq<Outcome<R>>, trace: Trace)

  predicate RequestsDeclared<A, R>(b: Build, reqs: seq<Request<A, R>>) {
    forall i :: 0 <= i < |reqs| ==> Declared(b.pcd, reqs[i].service.name)
  }

  /**
    The calls of `reqs`, one after another through CALL_BASECRYPTLIB; nothing
    runs after a call whose handler halted.
  */
  function Run<A, R>(b: Build, t: Trace, reqs: seq<Request<A, R>>): Session<R>
    requires RequestsDeclared(b, reqs)
    decreases |reqs|
  {
    if reqs == [] then Session([], t)
    else
      var s := Call(b, t, reqs[0].service, reqs[0].args, reqs[0].errorReturnValue);
      if s.outcome.Halted? then Session([Halted], s.trace)
      else
        var rest := Run(b, s.trace, reqs[1..]);
        Session([s.outcome] + rest.outcomes, rest.trace)
  }

  /** What a non-halting build returns for one request, without a trace. */
  function Expected<A, R>(b: Build, r: Request<A, R>): Outcome<R>
    requires Declared(b.pcd, r.service.name)
  {
    if IsEnabled(b.pcd, r.service.name) then Returned(r.service.impl(r.args))
    else Returned(r.errorReturnValue)
  }

  /** One diagnostic per disabled request, in request order. */
  function DisabledDiagnostics<A, R>(b: Build, reqs: seq<Request<A, R>>): seq<Diagnostic>
    requires RequestsDeclared(b, reqs)
    decreases |reqs|
  {
    if reqs == [] then []
    else
      (if IsEnabled(b.pcd, reqs[0].service.name) then []
       else [NotEnabledDiagnostic(b, reqs[0].service.name)])
      + DisabledDiagnostics(b, reqs[1..])
  }

  /** The names of the enabled requests, in request order. */
  function EnabledNames<A, R>(b: Build, reqs: seq<Request<A, R>>): seq<string>
    requires RequestsDeclared(b, reqs)
    decreases |reqs|
  {
    if reqs == [] then []
    else
      (if IsEnabled(b.pcd, reqs[0].service.name) then [reqs[0].service.name] else [])
      + EnabledNames(b, reqs[1..])
  }

  /** The number of disabled requests. */
  function CountDisabled<A, R>(b: Build, reqs: seq<Request<A, R>>): nat
    requires RequestsDeclared(b, reqs)
    decreases |reqs|
  {
    if reqs == [] then 0
    else (if IsEnabled(b.pcd, reqs[0].service.name) then 0 else 1) + CountDisabled(b, reqs[1..])
  }

  /**
    The diagnostics of the disabled requests: one per disabled request, each
    naming a disabled service of the sequence.
  */
  lemma {:induction false} DisabledDiagnosticsShape<A, R>(b: Build, reqs: seq<Request<A, R>>)
    requires RequestsDeclared(b, reqs)
    ensures |DisabledDiagnostics(b, reqs)| == CountDisabled(b, reqs)
    ensures forall d :: d in DisabledDiagnostics(b, reqs) ==>
      d.severity == DebugError && d.callerBaseName == b.callerBaseName &&
      exists i :: (0 <= i < |reqs| && reqs[i].service.name == d.functionName &&
                   !IsEnabled(b.pcd, reqs[i].service.name))
    decreases |reqs|
  {
    if reqs != [] {
      DisabledDiagnosticsShape(b, reqs[1..]);
      forall d | d in DisabledDiagnostics(b, reqs)
        ensures exists i :: (0 <= i < |reqs| && reqs[i].service.name == d.functionName &&
                             !IsEnabled(b.pcd, reqs[i].service.name))
      {
        if d !in DisabledDiagnostics(b, reqs[1..]) {
          assert reqs[0].service.name == d.functionName;
        } else {
          var j :| 0 <= j < |reqs[1..]| && reqs[1..][j].service.name == d.functionName &&
            !IsEnabled(b.pcd, reqs[1..][j].service.name);
          assert reqs[j + 1] == reqs[1..][j];
        }
      }
    }
  }

  /** One step of Run: the first call, then the rest unless it halted. */
  lemma RunUnfold<A, R>(b: Build, t: Trace, reqs: seq<Request<A, R>>)
    requires RequestsDeclared(b, reqs) && reqs != []
    ensures RequestsDeclared(b, reqs[1..])
    ensures var s := Call(b, t, reqs[0].service, reqs[0].args, reqs[0].errorReturnValue);
      Run(b, t, reqs) ==
        if s.outcome.Halted? then Session([Halted], s.trace)
        else Session([s.outcome] + Run(b, s.trace, reqs[1..]).outcomes, Run(b, s.trace, reqs[1..]).trace)
  {
    assert forall i :: 0 <= i < |reqs[1..]| ==> reqs[1..][i] == reqs[i + 1];
  }

  /** In a non-halting build the i-th outcome of a session is Expected of the i-th request. */
  lemma {:induction false} ReleaseRunOutcomes<A, R>(b: Build, t: Trace, reqs: seq<Request<A, R>>)
    requires !b.debug && RequestsDeclared(b, reqs)
    ensures |Run(b, t, reqs).outcomes| == |reqs|
    ensures forall i :: 0 <= i < |reqs| ==> Run(b, t, reqs).outcomes[i] == Expected(b, reqs[i])
    decreases |reqs|
  {
    if reqs != [] {
      var s := Call(b, t, reqs[0].service, reqs[0].args, reqs[0].errorReturnValue);
      RunUnfold(b, t, reqs);
      var rest := reqs[1..];
      ReleaseRunOutcomes(b, s.trace, rest);
      var outs := Run(b, t, reqs).outcomes;
      assert outs == [s.outcome] + Run(b, s.trace, rest).outcomes;
      forall i | 0 <= i < |reqs| ensures outs[i] == Expected(b, reqs[i]) {
        if i > 0 {
          assert reqs[i] == rest[i - 1];
        }
      }
    }
  }

  /** In a non-halting build a session's log gains exactly the disabled requests' diagnostics. */
  lemma {:induction false} ReleaseRunLog<A, R>(b: Build, t: Trace, reqs: seq<Request<A, R>>)
    requires !b.debug && RequestsDeclared(b, reqs)
    ensures Run(b, t, reqs).trace.log == t.log + DisabledDiagnostics(b, reqs)
    decreases |reqs|
  {
    if reqs != [] {
      var s := Call(b, t, reqs[0].service, reqs[0].args, reqs[0].errorReturnValue);
      RunUnfold(b, t, reqs);
      ReleaseRunLog(b, s.trace, reqs[1..]);
      assert t.log + DisabledDiagnostics(b, reqs)
        == s.trace.log + DisabledDiagnostics(b, reqs[1..]);
    }
  }

  /** In a non-halting build the functions of exactly the enabled requests run, in order. */
  lemma {:induction false} ReleaseRunInvoked<A, R>(b: Build, t: Trace, reqs: seq<Request<A, R>>)
    requires !b.debug && RequestsDeclared(b, reqs)
    ensures Run(b, t, reqs).trace.invoked == t.invoked + EnabledNames(b, reqs)
    decreases |reqs|
  {
    if reqs != [] {
      var s := Call(b, t, reqs[0].service, reqs[0].args, reqs[0].errorReturnValue);
      RunUnfold(b, t, reqs);
      ReleaseRunInvoked(b, s.trace, reqs[1..]);
      assert t.invoked + EnabledNames(b, reqs)
        == s.trace.invoked + EnabledNames(b, reqs[1..]);
    }
  }

  /**
    In a non-halting build every call returns: the i-th outcome is what the
    non-halting build promises for the i-th request, the log grows by one
    diagnostic per disabled request and the implementation runs exactly for
    the enabled requests, in order.
  */
  lemma ReleaseRun<A, R>(b: Build, t: Trace, reqs: seq<Request<A, R>>)
    requires !b.debug && RequestsDeclared(b, reqs)
    ensures |Run(b, t, reqs).outcomes| == |reqs|
    ensures forall i :: 0 <= i < |reqs| ==> Run(b, t, reqs).outcomes[i] == Expected(b, reqs[i])
    ensures Run(b, t, reqs).trace.log == t.log + DisabledDiagnostics(b, reqs)
    ensures Run(b, t, reqs).trace.invoked == t.invoked + EnabledNames(b, reqs)
  {
    ReleaseRunOutcomes(b, t, reqs);
    ReleaseRunLog(b, t, reqs);
    ReleaseRunInvoked(b, t, reqs);
  }

  /**
    In a build whose ASSERT returns, a session adds exactly one diagnostic per
    disabled call to the log and nothing else: each added entry is an error
    carrying the caller base name and naming a disabled service of the session.
  */
  lemma DisabledDiagnosticsOnePerCall<A, R>(b: Build, t: Trace, reqs: seq<Request<A, R>>)
    requires !b.debug && RequestsDeclared(b, reqs)
    ensures |Run(b, t, reqs).trace.log| == |t.log| + CountDisabled(b, reqs)
    ensures Run(b, t, reqs).trace.log[..|t.log|] == t.log
    ensures forall d :: d in Run(b, t, reqs).trace.log[|t.log|..] ==>
      d.severity == DebugError && d.callerBaseName == b.callerBaseName &&
      exists i :: (0 <= i < |reqs| && reqs[i].service.name == d.functionName &&
                   !IsEnabled(b.pcd, reqs[i].service.name))
  {
    ReleaseRunLog(b, t, reqs);
    DisabledDiagnosticsShape(b, reqs);
    var log := Run(b, t, reqs).trace.log;
    assert log[|t.log|..] == DisabledDiagnostics(b, reqs);
  }

  /**
    A non-halting build with every requested service disabled: every call returns
    its own ErrorReturnValue and no implementation code runs.
  */
  lemma {:induction false} AllDisabledRun<A, R>(b: Build, t: Trace, reqs: seq<Request<A, R>>)
    requires !b.debug && RequestsDeclared(b, reqs)
    requires forall i :: 0 <= i < |reqs| ==> !IsEnabled(b.pcd, reqs[i].service.name)
    ensures |Run(b, t, reqs).outcomes| == |reqs|
    ensures forall i :: 0 <= i < |reqs| ==>
      Run(b, t, reqs).outcomes[i] == Returned(reqs[i].errorReturnValue)
    ensures Run(b, t, reqs).trace.invoked == t.invoked
    ensures |Run(b, t, reqs).trace.log| == |t.log| + |reqs|
  {
    ReleaseRun(b, t, reqs);
    NoEnabledNames(b, reqs);
    DisabledDiagnosticsShape(b, reqs);
    AllDisabledCount(b, reqs);
  }

  lemma {:induction false} NoEnabledNames<A, R>(b: Build, reqs: seq<Request<A, R>>)
    requires RequestsDeclared(b, reqs)
    requires forall i :: 0 <= i < |reqs| ==> !IsEnabled(b.pcd, reqs[i].service.name)
    ensures EnabledNames(b, reqs) == []
    decreases |reqs|
  {
    if reqs != [] {
      assert forall i :: 0 <= i < |reqs[1..]| ==> reqs[1..][i] == reqs[i + 1];
      NoEnabledNames(b, reqs[1..]);
    }
  }

  lemma {:induction false} AllDisabledCount<A, R>(b: Build, reqs: seq<Request<A, R>>)
    requires RequestsDeclared(b, reqs)
    requires forall i :: 0 <= i < |reqs| ==> !IsEnabled(b.pcd, reqs[i].service.name)
    ensures CountDisabled(b, reqs) == |reqs|
    decreases |reqs|
  {
    if reqs != [] {
      assert forall i :: 0 <= i < |reqs[1..]| ==> reqs[1..][i] == reqs[i + 1];
      AllDisabledCount(b, reqs[1..]);
    }
  }

  /** The names of a sequence of requests. */
  function Names<A, R>(reqs: seq<Request<A, R>>): seq<string> {
    seq(|reqs|, i requires 0 <= i < |reqs| => reqs[i].service.name)
  }

  /** The requests before the first disabled one return their results; the session then halts. */
  lemma {:induction false} DebugRunOutcomes<A, R>(b: Build, t: Trace, reqs: seq<Request<A, R>>, k: nat)
    requires b.debug && RequestsDeclared(b, reqs)
    requires k < |reqs| && !IsEnabled(b.pcd, reqs[k].service.name)
    requires forall j :: 0 <= j < k ==> IsEnabled(b.pcd, reqs[j].service.name)
    ensures |Run(b, t, reqs).outcomes| == k + 1
    ensures Run(b, t, reqs).outcomes[k] == Halted
    ensures forall j :: 0 <= j < k ==>
      Run(b, t, reqs).outcomes[j] == Returned(reqs[j].service.impl(reqs[j].args))
    decreases k
  {
    var s := Call(b, t, reqs[0].service, reqs[0].args, reqs[0].errorReturnValue);
    RunUnfold(b, t, reqs);
    if k > 0 {
      var rest := reqs[1..];
      assert forall j :: 0 <= j < |rest| ==> rest[j] == reqs[j + 1];
      DebugRunOutcomes(b, s.trace, rest, k - 1);
      var outs := Run(b, t, reqs).outcomes;
      assert outs == [s.outcome] + Run(b, s.trace, rest).outcomes;
      forall j | 0 <= j < k ensures outs[j] == Returned(reqs[j].service.impl(reqs[j].args)) {
        if j > 0 {
          assert outs[j] == Run(b, s.trace, rest).outcomes[j - 1];
        }
      }
    }
  }

  /** A DEBUG session's trace: the enabled prefix's invocations and the one diagnostic. */
  lemma {:induction false} DebugRunTrace<A, R>(b: Build, t: Trace, reqs: seq<Request<A, R>>, k: nat)
    requires b.debug && RequestsDeclared(b, reqs)
    requires k < |reqs| && !IsEnabled(b.pcd, reqs[k].service.name)
    requires forall j :: 0 <= j < k ==> IsEnabled(b.pcd, reqs[j].service.name)
    ensures Run(b, t, reqs).trace.log == t.log + [NotEnabledDiagnostic(b, reqs[k].service.name)]
    ensures Run(b, t, reqs).trace.invoked == t.invoked + Names(reqs[..k])
    decreases k
  {
    var s := Call(b, t, reqs[0].service, reqs[0].args, reqs[0].errorReturnValue);
    RunUnfold(b, t, reqs);
    if k > 0 {
      var rest := reqs[1..];
      assert forall j :: 0 <= j < |rest| ==> rest[j] == reqs[j + 1];
      DebugRunTrace(b, s.trace, rest, k - 1);
      assert Names(reqs[..k]) == [reqs[0].service.name] + Names(rest[..k - 1]);
    } else {
      assert Names(reqs[..k]) == [];
    }
  }

  /**
    In a DEBUG build the first disabled call halts the driver: the requests
    before it run their functions and return their results, the session ends
    with Halted right after it, and the log holds exactly its one diagnostic.
  */
  lemma DebugRunHaltsAtFirstDisabled<A, R>(b: Build, t: Trace, reqs: seq<Request<A, R>>, k: nat)
    requires b.debug && RequestsDeclared(b, reqs)
    requires k < |reqs| && !IsEnabled(b.pcd, reqs[k].service.name)
    requires forall j :: 0 <= j < k ==> IsEnabled(b.pcd, reqs[j].service.name)
    ensures |Run(b, t, reqs).outcomes| == k + 1
    ensures Run(b, t, reqs).outcomes[k] == Halted
    ensures forall j :: 0 <= j < k ==>
      Run(b, t, reqs).outcomes[j] == Returned(reqs[j].service.impl(reqs[j].args))
    ensures Run(b, t, reqs).trace.log == t.log + [NotEnabledDiagnostic(b, reqs[k].service.name)]
    ensures Run(b, t, reqs).trace.invoked == t.invoked + Names(reqs[..k])
  {
    DebugRunOutcomes(b, t, reqs, k);
    DebugRunTrace(b, t, reqs, k);
  }
}
