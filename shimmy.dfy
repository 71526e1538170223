/**
 * The process-signal handler shimmy installs while executing a shim
 * (shimmy/src/shimmy.c, nt_shimmy_signal_handler).  A segmentation-fault
 * exception that carries a bound shim is answered by running the shim's
 * handler and turning the signal into a return.
 */
module Shimmy {
  import opened Values
  import Shims

  /** NtException values. */
  const ExceptionNone: nat := 0
  const ExceptionSegVio: nat := 1

  /** NtProcessSignalResult bits: STOP and RETURN are both the zero bit pattern. */
  const SignalStop: bv8 := 0
  const SignalContinue: bv8 := 1
  const SignalReturn: bv8 := 0
  const SignalQuit: bv8 := 2

  /** NtSignalReturn */
  datatype ReturnData = ReturnData(stack: Addr, arg0: Addr, arg1: Addr, arg2: Addr, arg3: Addr)

  /** NtProcessSignal, with the exception kind and the return data kept apart. */
  datatype ProcessSignal = ProcessSignal(
    isInterrupt: bool,
    isException: bool,
    isReturn: bool,
    stack: Addr,
    address: Addr,
    exceptionKind: nat,
    returnData: ReturnData)

  /** The ShimCall record passed as the handler's data: the shim to run and its argument. */
  datatype ShimCall = ShimCall(shim: Shims.Binding?, data: Addr)

  /** One call of a binding's handler, `handler(binding, data)`. */
  datatype HandlerCall = HandlerCall(binding: Shims.Binding, data: Addr)

  /**
   * nt_shimmy_signal_handler: for a SEG_VIO exception whose shim is bound,
   * runs the shim's handler once (its result is `handlerResult`), rewrites
   * the signal to a return carrying that result in arg0 and NULL in
   * arg1-arg3, and answers STOP | RETURN.  Any other signal, or an unbound
   * shim, is left unchanged and answered CONTINUE without running anything.
   */
  method SignalHandler(reg: Shims.Registry, signal: ProcessSignal, call: ShimCall, handlerResult: Addr)
      returns (result: bv8, out: ProcessSignal, calls: seq<HandlerCall>)
    requires reg.Valid()
    ensures var handled := signal.isException && signal.exceptionKind == ExceptionSegVio && reg.Bound(call.shim);
      && (handled ==>
        && result == SignalStop | SignalReturn
        && call.shim != null
        && calls == [HandlerCall(call.shim, call.data)]
        && out == signal.(isReturn := true, isException := false,
             returnData := signal.returnData.(arg0 := handlerResult, arg1 := Null, arg2 := Null, arg3 := Null)))
      && (!handled ==> result == SignalContinue && out == signal && calls == [])
    ensures (result & SignalContinue == 0) <==> signal.isException && signal.exceptionKind == ExceptionSegVio && reg.Bound(call.shim)
    ensures result & SignalQuit == 0
  {
    if signal.isException {
      if signal.exceptionKind == ExceptionSegVio {
        var binding := reg.GetShim(call.shim);
        if binding != null {
          calls := [HandlerCall(binding, call.data)];
          var value := handlerResult;
          out := signal.(isReturn := true, isException := false);
          out := out.(returnData := out.returnData.(arg0 := value, arg1 := Null, arg2 := Null, arg3 := Null));
          return SignalStop | SignalReturn, out, calls;
        }
      }
    }
    return SignalContinue, signal, [];
  }

  /**
   * The exec sequence in shimmy/tests/test-shimmy.c: with ("test", "test")
   * bound, a SEG_VIO exception for the found shim is answered with the
   * handler's result and the handler runs once.
   */
  method ExecScenario(handler: Shims.ShimMethod, signal: ProcessSignal, data: Addr, value: Addr)
      returns (result: bv8, out: ProcessSignal, calls: seq<HandlerCall>)
    requires handler != Null
    requires signal.isException && signal.exceptionKind == ExceptionSegVio
    ensures result == SignalStop && out.isReturn && !out.isException && out.returnData.arg0 == value
    ensures |calls| == 1 && calls[0].data == data && calls[0].binding.handler == handler
  {
    var reg := new Shims.Registry();
    var id := reg.Bind("test", "test", handler);
    var shim := reg.Find("test", "test");
    assert reg.bindings[0] == id;
    result, out, calls := SignalHandler(reg, signal, ShimCall(shim, data), value);
  }
}
