/**
 * The Node binding of the HTTP parser: a script object supplies handlers for seven parser
 * events, the binding keeps them in a fixed table, feeds caller-supplied buffer slices to the
 * parsing engine, turns each engine event into a handler call whose result it translates into
 * the engine's integer convention, and maps error codes to text.
 *
 * The parsing engine (`http_parser_init`, `http_parser_execute`, `http_parser_pause`) is not
 * part of this model: it is the abstract `Engine` below, over a state type `S` that the
 * binding holds by value and never looks into.
 */
module HttpParserBinding {

  import opened Wrappers
  import opened JsValues

  // ---------------------------------------------------------------------------------------
  // Events and the handler table
  // ---------------------------------------------------------------------------------------

  /** The seven parser events; each has one slot in the handler table. */
  datatype Event =
    | MessageBegin | Url | HeaderField | HeaderValue | HeadersComplete | Body | MessageComplete

  /** The slot number of each event, as the callback map fixes it. */
  function Slot(e: Event): (n: nat)
    ensures n < 7
  {
    match e
    case MessageBegin => 0
    case Url => 1
    case HeaderField => 2
    case HeaderValue => 3
    case HeadersComplete => 4
    case Body => 5
    case MessageComplete => 6
  }

  /** The event that owns slot `n`. */
  function EventAt(n: nat): (e: Event)
    requires n < 7
    ensures Slot(e) == n
  {
    [MessageBegin, Url, HeaderField, HeaderValue, HeadersComplete, Body, MessageComplete][n]
  }

  /** The name of the target property that supplies the handler for an event. */
  function Name(e: Event): (s: string)
    ensures |s| > 3 && s[..3] == "on_"
  {
    match e
    case MessageBegin => "on_message_begin"
    case Url => "on_url"
    case HeaderField => "on_header_field"
    case HeaderValue => "on_header_value"
    case HeadersComplete => "on_headers_complete"
    case Body => "on_body"
    case MessageComplete => "on_message_complete"
  }

  /** The four events the engine reports together with a span of its input. */
  predicate CarriesData(e: Event)
  {
    e == Url || e == HeaderField || e == HeaderValue || e == Body
  }

  /** Slot numbers and events are in one-to-one correspondence, and so are events and names. */
  lemma SlotsAndNamesAreDistinct(a: Event, b: Event)
    ensures Slot(a) == Slot(b) ==> a == b
    ensures Name(a) == Name(b) ==> a == b
  {
  }

  /** The handler table: slot `n` holds the handler of `EventAt(n)`, if there is one. */
  type Table = seq<Option<JsValue>>

  /** A property read: an absent property reads as `undefined`. */
  function Get(obj: JsValue, name: string): (v: JsValue)
    requires obj.Object?
    ensures name in obj.props ==> v == obj.props[name]
    ensures name !in obj.props ==> v == Undefined
  {
    if name in obj.props then obj.props[name] else Undefined
  }

  /** What a rebind stores for property `name` of `target`: the property if it is a function. */
  function Binding(target: JsValue, name: string): (slot: Option<JsValue>)
    requires target.Object?
    ensures slot.Some? <==> IsFunction(Get(target, name))
    ensures slot.Some? ==> slot.value == Get(target, name)
  {
    var v := Get(target, name);
    if IsFunction(v) then Some(v) else None
  }

  /** The table a rebind to `target` produces. */
  function BoundTable(target: JsValue): (t: Table)
    requires target.Object?
    ensures |t| == 7
    ensures forall e: Event :: t[Slot(e)] == Binding(target, Name(e))
  {
    seq(7, n requires 0 <= n < 7 => Binding(target, Name(EventAt(n))))
  }

  /** A filled slot holds a function, and a slot is filled exactly when the target's same-named property is one. */
  lemma BoundTableHoldsFunctions(target: JsValue, e: Event)
    requires target.Object?
    ensures BoundTable(target)[Slot(e)].Some? <==>
              Name(e) in target.props && IsFunction(target.props[Name(e)])
    ensures BoundTable(target)[Slot(e)].Some? ==>
              BoundTable(target)[Slot(e)].value == target.props[Name(e)]
  {
  }

  // ---------------------------------------------------------------------------------------
  // Handler calls and their results
  // ---------------------------------------------------------------------------------------

  /** The arguments of a handler call: the parser object, and for data events the span. */
  datatype CallArgs =
    | NotifyArgs(parser: nat)
    | DataArgs(parser: nat, buffer: Bytes, offset: nat, size: nat)

  /** What a script call hands back: nothing (the call threw), or a value. */
  datatype Completion = Empty | Returned(value: JsValue)

  /** The script runtime: calls a function with a receiver and arguments. */
  type Invoker = (JsValue, JsValue, CallArgs) -> Completion

  /** The engine's reading of a completed call: an empty result is -1, a value its int32. */
  function ReturnCode(c: Completion): (r: int)
    ensures IsInt32(r)
    ensures c.Empty? ==> r == -1
    ensures c.Returned? ==> r == Int32Value(c.value)
  {
    match c
    case Empty => -1
    case Returned(v) => Int32Value(v)
  }

  /** The handler call for an event without data. */
  function NotifyCallback(cb: Option<JsValue>, target: JsValue, handle: nat, invoke: Invoker): (r: int)
    ensures IsInt32(r)
    ensures cb.None? ==> r == 0
    ensures cb.Some? ==> r == ReturnCode(invoke(cb.value, target, NotifyArgs(handle)))
  {
    if cb.None? then 0
    else ReturnCode(invoke(cb.value, target, NotifyArgs(handle)))
  }

  /**
   * The handler call for an event with data at `offset`, `size` in the held buffer. The buffer
   * must be held and the span must lie inside it; the offset and size reach the script as
   * unsigned 32-bit integers.
   */
  function DataCallback(cb: Option<JsValue>, target: JsValue, handle: nat, held: Option<Bytes>,
                        offset: nat, size: nat, invoke: Invoker): (r: int)
    requires held.Some?
    requires offset + size <= |held.value|
    ensures IsInt32(r)
    ensures cb.None? ==> r == 0
    ensures cb.Some? ==>
      r == ReturnCode(invoke(cb.value, target, DataArgs(handle, held.value, ToUint32(offset), ToUint32(size))))
  {
    if cb.None? then 0
    else
      var buf := held.value;
      ReturnCode(invoke(cb.value, target, DataArgs(handle, buf, ToUint32(offset), ToUint32(size))))
  }

  /** A translated return of a handler that returns a plain value. */
  lemma ReturnCodeOfPlainValues(n: int)
    ensures ReturnCode(Returned(Undefined)) == 0
    ensures IsInt32(n) ==> ReturnCode(Returned(Number(n))) == n
    ensures ReturnCode(Returned(Number(TWO_32 - 1))) == ReturnCode(Empty)
  {
  }

  // ---------------------------------------------------------------------------------------
  // The engine
  // ---------------------------------------------------------------------------------------

  /**
   * An event the engine raises while it runs over a slice of length `len`; a data event
   * carries the position and size of its span inside that slice.
   */
  datatype Raise = Notify(event: Event) | Data(event: Event, pos: nat, size: nat)

  /** The engine raises data events only for data events, with spans inside its slice. */
  predicate Reportable(r: Raise, len: nat)
  {
    match r
    case Notify(e) => !CarriesData(e)
    case Data(e, pos, size) => CarriesData(e) && pos + size <= len
  }

  datatype EngineRun<S> = EngineRun(consumed: nat, state: S)

  /**
   * The parsing engine: a fresh state for a parser type, a run over a slice that calls back
   * through the given dispatcher and reports how many bytes it consumed, and pause/unpause.
   */
  datatype Engine<!S> = Engine(
    init: nat -> S,
    execute: (S, Bytes, Raise --> int) -> EngineRun<S>,
    pause: (S, bool) -> S)

  /**
   * How the binding answers one engine event while it holds buffer `held`, whose slice
   * from `start` on, `len` long, the engine is running over.
   */
  function Dispatch(table: Table, target: JsValue, handle: nat, held: Option<Bytes>,
                    start: nat, len: nat, invoke: Invoker, r: Raise): (code: int)
    requires |table| == 7 && held.Some? && start + len <= |held.value|
    requires Reportable(r, len)
    ensures IsInt32(code)
    ensures table[Slot(r.event)].None? ==> code == 0
    ensures r.Notify? && table[Slot(r.event)].Some? ==>
      code == ReturnCode(invoke(table[Slot(r.event)].value, target, NotifyArgs(handle)))
    ensures r.Data? && table[Slot(r.event)].Some? ==>
      code == ReturnCode(invoke(table[Slot(r.event)].value, target,
                                DataArgs(handle, held.value, ToUint32(start + r.pos), ToUint32(r.size))))
  {
    match r
    case Notify(e) => NotifyCallback(table[Slot(e)], target, handle, invoke)
    case Data(e, pos, size) => DataCallback(table[Slot(e)], target, handle, held, start + pos, size, invoke)
  }

  /** The callbacks the engine is given for one run. */
  function Dispatcher(table: Table, target: JsValue, handle: nat, held: Option<Bytes>,
                      start: nat, len: nat, invoke: Invoker): (d: Raise --> int)
    requires |table| == 7 && held.Some? && start + len <= |held.value|
    ensures forall r :: Reportable(r, len) ==>
      d.requires(r) && d(r) == Dispatch(table, target, handle, held, start, len, invoke, r)
  {
    (r: Raise) requires Reportable(r, len) => Dispatch(table, target, handle, held, start, len, invoke, r)
  }

  /**
   * A span the engine reports inside its slice is the span at `start + pos` of the whole
   * buffer: the handler sees, in the buffer, exactly the bytes the engine pointed at.
   */
  lemma SpanAliasesSlice(buf: Bytes, start: nat, len: nat, pos: nat, size: nat)
    requires start + len <= |buf|
    requires pos + size <= len
    ensures start + pos + size <= |buf|
    ensures buf[start + pos .. start + pos + size] == buf[start .. start + len][pos .. pos + size]
  {
    var seen := buf[start .. start + len][pos .. pos + size];
    var span := buf[start + pos .. start + pos + size];
    assert |seen| == |span| == size;
    forall k | 0 <= k < size ensures span[k] == seen[k] {
    }
  }

  /** On buffers shorter than 2^32 bytes the span reaches the script without truncation. */
  lemma SpanNotTruncated(buflen: nat, offset: nat, size: nat)
    requires buflen < TWO_32 && offset + size <= buflen
    ensures ToUint32(offset) == offset && ToUint32(size) == size
  {
  }

  // ---------------------------------------------------------------------------------------
  // The bounds check of execute
  // ---------------------------------------------------------------------------------------

  /** The width in bits of `size_t` on the platform the binding is built for. */
  type SizeWidth = w: nat | w == 32 || w == 64 witness 64

  function SizeModulus(w: SizeWidth): nat
  {
    if w == 32 then 0x1_0000_0000 else 0x1_0000_0000_0000_0000
  }

  /** Unsigned `size_t` addition, which wraps around. */
  function SizeAdd(w: SizeWidth, a: nat, b: nat): (r: nat)
    requires a < SizeModulus(w) && b < SizeModulus(w)
    ensures r < SizeModulus(w)
    ensures r == a + b || r == a + b - SizeModulus(w)
  {
    if a + b < SizeModulus(w) then a + b else a + b - SizeModulus(w)
  }

  /** The guard of execute, in `size_t` arithmetic, on 32-bit `start` and `len`. */
  predicate OutOfBounds(w: SizeWidth, start: nat, len: nat, buflen: nat)
    requires start < TWO_32 && len < TWO_32 && buflen < SizeModulus(w)
    ensures start + len >= SizeModulus(w) ==> OutOfBounds(w, start, len, buflen)
    ensures start < buflen && start + len <= buflen ==> !OutOfBounds(w, start, len, buflen)
  {
    start >= buflen || SizeAdd(w, start, len) > buflen || start > SizeAdd(w, start, len)
  }

  /**
   * On either width the guard rejects exactly the slices that do not start inside the buffer
   * or do not end inside it.
   */
  lemma OutOfBoundsExactly(w: SizeWidth, start: nat, len: nat, buflen: nat)
    requires start < TWO_32 && len < TWO_32 && buflen < SizeModulus(w)
    ensures OutOfBounds(w, start, len, buflen) <==> start >= buflen || start + len > buflen
  {
    if start + len >= SizeModulus(w) {
      assert SizeAdd(w, start, len) == start + len - SizeModulus(w) < start;
    } else {
      assert SizeAdd(w, start, len) == start + len;
    }
  }

  /** Because the test is `start >= buflen`, an empty buffer and an empty slice at its end fail. */
  lemma EmptySlicesAtTheEndRejected(w: SizeWidth, start: nat, buflen: nat)
    requires start < TWO_32 && buflen < SizeModulus(w) && buflen < TWO_32
    ensures OutOfBounds(w, start, 0, 0)
    ensures OutOfBounds(w, buflen, 0, buflen)
  {
  }

  /**
   * On a 32-bit `size_t` the overflow test is needed: for every slice that starts inside the
   * buffer and whose end wraps around, the first two tests pass and only the third rejects it.
   */
  lemma OverflowTestNeededOn32Bit(start: nat, len: nat, buflen: nat)
    requires start < buflen < TWO_32 && len < TWO_32 && start + len >= TWO_32
    ensures var sum := SizeAdd(32, start, len);
      !(start >= buflen || sum > buflen) && start > sum && start + len > buflen
  {
  }

  /** On a 64-bit `size_t` the sum of two 32-bit values cannot wrap. */
  lemma OverflowTestRedundantOn64Bit(start: nat, len: nat)
    requires start < TWO_32 && len < TWO_32
    ensures SizeAdd(64, start, len) == start + len
  {
  }

  // ---------------------------------------------------------------------------------------
  // strerror
  // ---------------------------------------------------------------------------------------

  /** One row of the engine's error table: a code and the text of its description literal. */
  datatype ErrnoEntry = ErrnoEntry(code: int, description: string)

  /** The codes of a switch are distinct. */
  predicate DistinctCodes(table: seq<ErrnoEntry>)
  {
    forall i, j :: 0 <= i < j < |table| ==> table[i].code != table[j].code
  }

  /** The description of `code`, if the table has a row for it. */
  function Describe(table: seq<ErrnoEntry>, code: int): (d: Option<string>)
    requires DistinctCodes(table)
    ensures d.None? <==> forall i :: 0 <= i < |table| ==> table[i].code != code
    ensures forall i :: 0 <= i < |table| && table[i].code == code ==> d == Some(table[i].description)
  {
    if table == [] then None
    else if table[0].code == code then Some(table[0].description)
    else Describe(table[1..], code)
  }

  /** `strerror` with the description text itself for a known code. */
  function StrError(table: seq<ErrnoEntry>, arg: JsValue): (s: string)
    requires DistinctCodes(table)
    ensures forall i :: 0 <= i < |table| && table[i].code == Int32Value(arg) ==> s == table[i].description
    ensures (forall i :: 0 <= i < |table| ==> table[i].code != Int32Value(arg)) ==> s == "unknown error"
  {
    match Describe(table, Int32Value(arg))
    case Some(d) => d
    case None => "unknown error"
  }

  /**
   * `strerror` as written: each case returns the stringized macro argument. The argument is a
   * string literal, so the result is its spelling with the quote marks.
   */
  function StrErrorAsWritten(table: seq<ErrnoEntry>, arg: JsValue): (s: string)
    requires DistinctCodes(table)
    ensures forall i :: 0 <= i < |table| && table[i].code == Int32Value(arg) ==>
      s == "\"" + table[i].description + "\""
    ensures (forall i :: 0 <= i < |table| ==> table[i].code != Int32Value(arg)) ==> s == "unknown error"
  {
    match Describe(table, Int32Value(arg))
    case Some(d) => "\"" + d + "\""
    case None => "unknown error"
  }

  /** For every known code the text as written differs from the description: it is quoted. */
  lemma StrErrorAsWrittenKeepsQuotes(table: seq<ErrnoEntry>, arg: JsValue, i: nat)
    requires DistinctCodes(table)
    requires i < |table| && table[i].code == Int32Value(arg)
    ensures StrErrorAsWritten(table, arg) == "\"" + StrError(table, arg) + "\""
    ensures StrErrorAsWritten(table, arg) != table[i].description
  {
    assert |StrErrorAsWritten(table, arg)| == |table[i].description| + 2;
  }

  /** The first row of the engine's table, as the script sees it. */
  lemma StrErrorOfSuccess()
    ensures StrErrorAsWritten([ErrnoEntry(0, "success")], Number(0)) == "\"success\""
    ensures StrError([ErrnoEntry(0, "success")], Number(0)) == "success"
  {
  }

  // ---------------------------------------------------------------------------------------
  // The parser object
  // ---------------------------------------------------------------------------------------

  /**
   * The script-visible parser: the engine state, the handler table, the target whose
   * functions fill it, and the buffer held while the engine runs.
   */
  class Parser<S> {
    const engine: Engine<S>
    const width: SizeWidth
    const handle: nat
    var callbacks: array<Option<JsValue>>
    var target: JsValue
    var buffer: Option<Bytes>
    var state: S

    /** Between calls the table has its seven slots, the target is an object and no buffer is held. */
    ghost predicate Valid()
      reads this
    {
      callbacks.Length == 7 && target.Object? && buffer.None?
    }

    function Slots(): (t: Table)
      reads this, callbacks
    {
      callbacks[..]
    }

    /** The parser as `new Parser(target, type)` leaves it, for a target that is an object. */
    constructor Init(engine: Engine<S>, width: SizeWidth, handle: nat, val: JsValue, kind: nat)
      requires IsObject(val)
      ensures Valid() && fresh(callbacks)
      ensures this.engine == engine && this.width == width && this.handle == handle
      ensures target == val && Slots() == BoundTable(val)
      ensures state == engine.init(kind)
    {
      this.engine := engine;
      this.width := width;
      this.handle := handle;
      callbacks := new Option<JsValue>[7](_ => None);
      target := Undefined;
      buffer := None;
      state := engine.init(kind);
      new;
      RebindTarget(val);
    }

    /** Points the slot of `e` at the same-named function of `val`, or clears it. */
    method BindSlot(e: Event, val: JsValue)
      requires callbacks.Length == 7 && IsObject(val)
      modifies callbacks
      ensures callbacks[Slot(e)] == Binding(val, Name(e))
      ensures forall n :: 0 <= n < 7 && n != Slot(e) ==> callbacks[n] == old(callbacks[n])
    {
      var v := Get(val, Name(e));
      if IsFunction(v) {
        callbacks[Slot(e)] := Some(v);
      } else {
        callbacks[Slot(e)] := None;
      }
    }

    /** Rebinds every slot, one event after the other in callback-map order. */
    method RebindTarget(val: JsValue)
      requires callbacks.Length == 7 && IsObject(val)
      modifies this`target, callbacks
      ensures target == val && Slots() == BoundTable(val)
      ensures buffer == old(buffer) && state == old(state)
    {
      target := val;
      BindSlot(MessageBegin, val);
      BindSlot(HeadersComplete, val);
      BindSlot(MessageComplete, val);
      BindSlot(Url, val);
      BindSlot(HeaderField, val);
      BindSlot(HeaderValue, val);
      BindSlot(Body, val);
      forall n | 0 <= n < 7 ensures callbacks[n] == BoundTable(val)[n] {
        assert n == Slot(EventAt(n));
      }
    }

    /** `rebind(target)`: throws unless the target is an object. */
    method Rebind(val: JsValue) returns (r: Result<(), string>)
      requires Valid()
      modifies this`target, callbacks
      ensures Valid()
      ensures r.Failure? <==> !IsObject(val)
      ensures r.Failure? ==> r.error == "Argument must be an object" && target == old(target) && Slots() == old(Slots())
      ensures r.Success? ==> target == val && Slots() == BoundTable(val)
    {
      if !IsObject(val) {
        return Failure("Argument must be an object");
      }
      RebindTarget(val);
      return Success(());
    }

    /**
     * `execute(buf, start, len)`: rejects a slice that is not inside the buffer; otherwise runs
     * the engine over exactly that slice while holding the buffer, releases it, and returns the
     * engine's consumed count as an unsigned 32-bit integer.
     */
    method Execute(buf: Bytes, startArg: JsValue, lenArg: JsValue, invoke: Invoker)
      returns (r: Result<nat, string>)
      requires Valid()
      requires |buf| < SizeModulus(width)
      modifies this`buffer, this`state
      ensures Valid()
      ensures var start, len := Uint32Value(startArg), Uint32Value(lenArg);
        && (r.Failure? <==> OutOfBounds(width, start, len, |buf|))
        && (r.Failure? <==> start >= |buf| || start + len > |buf|)
        && (r.Failure? ==> r.error == "Out of bounds" && state == old(state))
        && (r.Success? ==>
              var run := engine.execute(old(state), buf[start .. start + len],
                                        Dispatcher(Slots(), target, handle, Some(buf), start, len, invoke));
              state == run.state && r.value == ToUint32(run.consumed))
    {
      var start, len := Uint32Value(startArg), Uint32Value(lenArg);
      OutOfBoundsExactly(width, start, len, |buf|);
      if start >= |buf| || SizeAdd(width, start, len) > |buf| || start > SizeAdd(width, start, len) {
        return Failure("Out of bounds");
      }
      buffer := Some(buf);
      var run := engine.execute(state, buf[start .. start + len],
                                Dispatcher(callbacks[..], target, handle, buffer, start, len, invoke));
      buffer := None;
      state := run.state;
      return Success(ToUint32(run.consumed));
    }

    /** `pause()` is `Pause(true)`, `unpause()` is `Pause(false)`. */
    method Pause(paused: bool)
      modifies this`state
      ensures state == engine.pause(old(state), paused)
    {
      state := engine.pause(state, paused);
    }

    /** `reset(type)`: a fresh engine state for the given parser type; the table is kept. */
    method Reset(typeArg: JsValue)
      modifies this`state
      ensures state == engine.init(Uint32Value(typeArg))
    {
      state := engine.init(Uint32Value(typeArg));
    }

    /** The destructor: every slot is cleared. */
    method Dispose()
      requires callbacks.Length == 7
      modifies callbacks
      ensures forall n :: 0 <= n < 7 ==> callbacks[n].None?
    {
      callbacks[Slot(MessageBegin)] := None;
      callbacks[Slot(HeadersComplete)] := None;
      callbacks[Slot(MessageComplete)] := None;
      callbacks[Slot(Url)] := None;
      callbacks[Slot(HeaderField)] := None;
      callbacks[Slot(HeaderValue)] := None;
      callbacks[Slot(Body)] := None;
    }
  }

  /** `new Parser(target, type)`: throws unless the target is an object. */
  method NewParser<S>(engine: Engine<S>, width: SizeWidth, handle: nat, val: JsValue, typeArg: JsValue)
    returns (r: Result<Parser<S>, string>)
    ensures r.Failure? <==> !IsObject(val)
    ensures r.Failure? ==> r.error == "Argument must be an object"
    ensures r.Success? ==>
      && fresh(r.value) && fresh(r.value.callbacks) && r.value.Valid()
      && r.value.target == val && r.value.Slots() == BoundTable(val)
      && r.value.state == engine.init(Uint32Value(typeArg))
  {
    if !IsObject(val) {
      return Failure("Argument must be an object");
    }
    var p := new Parser.Init(engine, width, handle, val, Uint32Value(typeArg));
    return Success(p);
  }
}
