/**
  The crypto driver as a running module: the debug log it writes to, the
  underlying functions it has invoked, and whether an ASSERT has halted it.
  Its methods are BaseCryptLibServiceNotEnabled and the two call macros, each
  proved against its specification in Dispatch.
*/
module Driver {
  import opened Pcd
  import opened Dispatch

  class CryptoDriver {
    /** The PCD database, DEBUG setting and caller base name of this build. */
    const build: Build
    /** The DEBUG output the driver has produced, oldest first. */
    var log: seq<Diagnostic>
    /** The BaseCryptLib/TlsLib functions the driver has called, oldest first. */
    var invoked: seq<string>
    /** An ASSERT has stopped execution. */
    var halted: bool

    /** The observable trace of the driver. */
    function Current(): Trace
      reads this
    {
      Trace(log, invoked)
    }

    constructor (build: Build)
      ensures this.build == build
      ensures log == [] && invoked == [] && !halted
    {
      this.build := build;
      log := [];
      invoked := [];
      halted := false;
    }

    /**
      BaseCryptLibServiceNotEnabled (FunctionName): print one error line
      naming the caller and the function, then ASSERT_EFI_ERROR (EFI_UNSUPPORTED).
    */
    method ServiceNotEnabled(functionName: string)
      requires !halted
      modifies this
      ensures log == old(log) + [Diagnostic(DebugError, build.callerBaseName, functionName)]
      ensures invoked == old(invoked)
      ensures halted == build.debug
      ensures Handled(Current(), halted) == Dispatch.ServiceNotEnabled(build, old(Current()), functionName)
    {
      log := log + [NotEnabledDiagnostic(build, functionName)];
      if build.debug {
        halted := true;
      }
    }

    /** CALL_BASECRYPTLIB (Function, Args, ErrorReturnValue). */
    method CallBaseCryptLib<A, R>(f: Service<A, R>, args: A, errorReturnValue: R) returns (r: Outcome<R>)
      requires !halted && Declared(build.pcd, f.name)
      modifies this
      ensures Step(r, Current()) == Call(build, old(Current()), f, args, errorReturnValue)
      ensures halted <==> r.Halted?
    {
      if IsEnabled(build.pcd, f.name) {
        invoked := invoked + [f.name];
        r := Returned(f.impl(args));
      } else {
        ServiceNotEnabled(f.name);
        r := if halted then Halted else Returned(errorReturnValue);
      }
    }

    /** CALL_VOID_BASECRYPTLIB (Function, Args). */
    method CallVoidBaseCryptLib<A>(f: Service<A, ()>, args: A) returns (r: Outcome<()>)
      requires !halted && Declared(build.pcd, f.name)
      modifies this
      ensures Step(r, Current()) == CallVoid(build, old(Current()), f, args)
      ensures halted <==> r.Halted?
    {
      if IsEnabled(build.pcd, f.name) {
        var _ := f.impl(args);
        invoked := invoked + [f.name];
        r := Returned(());
      } else {
        ServiceNotEnabled(f.name);
        r := if halted then Halted else Returned(());
      }
    }
  }
}
