/**
 * The connection glue of the example server: every socket read is fed whole to the parser,
 * and a read the parser does not consume completely is a parse error.
 */
module ServerConnection {

  import opened Wrappers
  import opened JsValues
  import opened HttpParserBinding

  /**
   * The check after `parser.execute(buf, 0, buf.length)`: an exception from execute goes on
   * up, and a consumed count other than the read's length throws "Parse error".
   */
  function CheckConsumed(r: Result<nat, string>, readLength: nat): (outcome: Result<(), string>)
    ensures outcome.Success? <==> r == Success(readLength)
    ensures r.Failure? ==> outcome == Failure(r.error)
    ensures r.Success? && r.value != readLength ==> outcome == Failure("Parse error")
  {
    match r
    case Failure(e) => Failure(e)
    case Success(n) => if n != readLength then Failure("Parse error") else Success(())
  }

  /** The `data` listener of a connection: feed the whole read and check the count. */
  method OnRead<S>(parser: Parser<S>, buf: Bytes, invoke: Invoker) returns (outcome: Result<(), string>)
    requires parser.Valid()
    requires |buf| < TWO_32
    modifies parser`buffer, parser`state
    ensures parser.Valid()
    ensures buf == [] ==> outcome == Failure("Out of bounds") && parser.state == old(parser.state)
    ensures buf != [] ==>
      var run := parser.engine.execute(old(parser.state), buf,
                   Dispatcher(parser.Slots(), parser.target, parser.handle, Some(buf), 0, |buf|, invoke));
      && parser.state == run.state
      && (outcome.Success? <==> ToUint32(run.consumed) == |buf|)
      && (outcome.Failure? ==> outcome.error == "Parse error")
  {
    assert SizeModulus(parser.width) >= TWO_32;
    var r := parser.Execute(buf, Number(0), Number(|buf|), invoke);
    assert buf[0 .. |buf|] == buf;
    outcome := CheckConsumed(r, |buf|);
  }

  /**
   * An empty read is never handed to the engine: execute rejects the slice, so the listener
   * throws instead of treating it as a clean read.
   */
  lemma EmptyReadRejected()
    ensures OutOfBounds(64, 0, 0, 0) && OutOfBounds(32, 0, 0, 0)
    ensures CheckConsumed(Failure("Out of bounds"), 0).Failure?
  {
    EmptySlicesAtTheEndRejected(64, 0, 0);
    EmptySlicesAtTheEndRejected(32, 0, 0);
  }

  /**
   * Every handler of the context returns `undefined`; the binding turns that into 0, through
   * either template, so a bound context handler never stops the engine.
   */
  lemma ContextHandlersContinue(fn: JsValue, target: JsValue, handle: nat, held: Option<Bytes>,
                                off: nat, size: nat, invoke: Invoker)
    requires held.Some? && off + size <= |held.value|
    requires invoke(fn, target, NotifyArgs(handle)) == Returned(Undefined)
    requires invoke(fn, target, DataArgs(handle, held.value, ToUint32(off), ToUint32(size))) == Returned(Undefined)
    ensures NotifyCallback(Some(fn), target, handle, invoke) == 0
    ensures DataCallback(Some(fn), target, handle, held, off, size, invoke) == 0
  {
  }
}
