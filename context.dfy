/**
 * The request context of the example server: it collects the URL and the header list of
 * one message from the fragments the parser reports. Header names and values may arrive in
 * several pieces; two accumulators, `headerName` and `headerValue`, collect the current piece
 * and hand off to each other, so that `headers` becomes `[name, value, name, value, ...]`.
 */
module ServerContext {

  import opened JsValues

  /** The four fields of a context. */
  datatype ContextState = ContextState(url: Bytes, headers: seq<Bytes>, headerName: Bytes, headerValue: Bytes)

  /** The state `reset` produces. */
  const Initial: ContextState := ContextState([], [], [], [])

  /** The list entry a non-empty accumulator contributes when it is flushed. */
  function Pending(acc: Bytes): seq<Bytes>
  {
    if acc == [] then [] else [acc]
  }

  /** A URL fragment extends the URL and nothing else. */
  function AfterUrl(s: ContextState, frag: Bytes): (t: ContextState)
    ensures t.url == s.url + frag
    ensures t.headers == s.headers && t.headerName == s.headerName && t.headerValue == s.headerValue
  {
    s.(url := s.url + frag)
  }

  /** A name fragment extends the name; a pending value is pushed first and cleared. */
  function AfterField(s: ContextState, frag: Bytes): (t: ContextState)
    ensures t.url == s.url && t.headerName == s.headerName + frag && t.headerValue == []
    ensures t.headers == s.headers + Pending(s.headerValue)
  {
    var named := s.(headerName := s.headerName + frag);
    if s.headerValue == [] then named
    else named.(headers := s.headers + [s.headerValue], headerValue := [])
  }

  /** A value fragment extends the value; a pending name is pushed first and cleared. */
  function AfterValue(s: ContextState, frag: Bytes): (t: ContextState)
    ensures t.url == s.url && t.headerValue == s.headerValue + frag && t.headerName == []
    ensures t.headers == s.headers + Pending(s.headerName)
  {
    var valued := s.(headerValue := s.headerValue + frag);
    if s.headerName == [] then valued
    else valued.(headers := s.headers + [s.headerName], headerName := [])
  }

  /** The end of the header block pushes the last pending value. */
  function AfterHeadersComplete(s: ContextState): (t: ContextState)
    ensures t.url == s.url && t.headerName == s.headerName && t.headerValue == []
    ensures t.headers == s.headers + Pending(s.headerValue)
  {
    if s.headerValue == [] then s
    else s.(headers := s.headers + [s.headerValue], headerValue := [])
  }

  /** At most one of the two accumulators holds text. */
  predicate NeverBothPending(s: ContextState)
  {
    s.headerName == [] || s.headerValue == []
  }

  /** Every handler leaves at most one accumulator non-empty, whatever the state before. */
  lemma HandlersKeepOneAccumulator(s: ContextState, frag: Bytes)
    ensures NeverBothPending(AfterField(s, frag)) && AfterField(s, frag).headerValue == []
    ensures NeverBothPending(AfterValue(s, frag)) && AfterValue(s, frag).headerName == []
    ensures NeverBothPending(AfterHeadersComplete(s))
    ensures NeverBothPending(s) ==> NeverBothPending(AfterUrl(s, frag))
  {
  }

  // ---------------------------------------------------------------------------------------
  // Replaying a stream of fragments
  // ---------------------------------------------------------------------------------------

  /** A fragment the parser reports to the context. */
  datatype Fragment = UrlPart(bytes: Bytes) | FieldPart(bytes: Bytes) | ValuePart(bytes: Bytes)

  function Apply(s: ContextState, f: Fragment): ContextState
  {
    match f
    case UrlPart(b) => AfterUrl(s, b)
    case FieldPart(b) => AfterField(s, b)
    case ValuePart(b) => AfterValue(s, b)
  }

  /** The state after the handlers have seen `fs`, in order. */
  function Replay(s: ContextState, fs: seq<Fragment>): ContextState
    decreases |fs|
  {
    if fs == [] then s else Replay(Apply(s, fs[0]), fs[1..])
  }

  lemma {:induction false} ReplayAppend(s: ContextState, a: seq<Fragment>, b: seq<Fragment>)
    ensures Replay(s, a + b) == Replay(Replay(s, a), b)
    decreases |a|
  {
    if a == [] {
      assert a + b == b;
    } else {
      assert (a + b)[0] == a[0] && (a + b)[1..] == a[1..] + b;
      ReplayAppend(Apply(s, a[0]), a[1..], b);
    }
  }

  /** The concatenation of a list of fragments. */
  function Concat(parts: seq<Bytes>): Bytes
  {
    if parts == [] then [] else parts[0] + Concat(parts[1..])
  }

  function UrlParts(parts: seq<Bytes>): seq<Fragment>
  {
    if parts == [] then [] else [UrlPart(parts[0])] + UrlParts(parts[1..])
  }

  function FieldParts(parts: seq<Bytes>): seq<Fragment>
  {
    if parts == [] then [] else [FieldPart(parts[0])] + FieldParts(parts[1..])
  }

  function ValueParts(parts: seq<Bytes>): seq<Fragment>
  {
    if parts == [] then [] else [ValuePart(parts[0])] + ValueParts(parts[1..])
  }

  /** The URL is the concatenation of all URL fragments; nothing else changes. */
  lemma {:induction false} UrlIsConcatenation(s: ContextState, parts: seq<Bytes>)
    ensures Replay(s, UrlParts(parts)) == s.(url := s.url + Concat(parts))
    decreases |parts|
  {
    if parts != [] {
      UrlIsConcatenation(AfterUrl(s, parts[0]), parts[1..]);
      assert s.url + parts[0] + Concat(parts[1..]) == s.url + (parts[0] + Concat(parts[1..]));
    }
  }

  /**
   * A run of name fragments: the name grows by their concatenation, and the value pending
   * before the run is pushed by its first fragment.
   */
  lemma {:induction false} FieldRun(s: ContextState, parts: seq<Bytes>)
    requires parts != []
    ensures Replay(s, FieldParts(parts)) ==
      s.(headerName := s.headerName + Concat(parts), headers := s.headers + Pending(s.headerValue), headerValue := [])
    decreases |parts|
  {
    var s1 := AfterField(s, parts[0]);
    if parts[1..] == [] {
      assert Concat(parts) == parts[0];
    } else {
      FieldRun(s1, parts[1..]);
      assert s.headerName + parts[0] + Concat(parts[1..]) == s.headerName + (parts[0] + Concat(parts[1..]));
    }
  }

  /** A run of value fragments, symmetrically. */
  lemma {:induction false} ValueRun(s: ContextState, parts: seq<Bytes>)
    requires parts != []
    ensures Replay(s, ValueParts(parts)) ==
      s.(headerValue := s.headerValue + Concat(parts), headers := s.headers + Pending(s.headerName), headerName := [])
    decreases |parts|
  {
    var s1 := AfterValue(s, parts[0]);
    if parts[1..] == [] {
      assert Concat(parts) == parts[0];
    } else {
      ValueRun(s1, parts[1..]);
      assert s.headerValue + parts[0] + Concat(parts[1..]) == s.headerValue + (parts[0] + Concat(parts[1..]));
    }
  }

  /** One header of a message, as the fragments of its name and of its value. */
  datatype HeaderRun = HeaderRun(name: seq<Bytes>, value: seq<Bytes>)

  /** The fragments of a run of headers, in the order the parser reports them. */
  function HeaderEvents(runs: seq<HeaderRun>): seq<Fragment>
  {
    if runs == [] then [] else FieldParts(runs[0].name) + ValueParts(runs[0].value) + HeaderEvents(runs[1..])
  }

  /** The alternating list the headers should produce: each name and value reassembled. */
  function Pairs(runs: seq<HeaderRun>): seq<Bytes>
  {
    if runs == [] then [] else [Concat(runs[0].name), Concat(runs[0].value)] + Pairs(runs[1..])
  }

  /** A header whose name and value both have text. */
  predicate Filled(r: HeaderRun)
  {
    Concat(r.name) != [] && Concat(r.value) != []
  }

  lemma {:induction false} ConcatNonEmpty(parts: seq<Bytes>)
    requires Concat(parts) != []
    ensures parts != []
  {
  }

  /** The fragments of one header. */
  function RunEvents(r: HeaderRun): seq<Fragment>
  {
    FieldParts(r.name) + ValueParts(r.value)
  }

  /** One header with text in its name and value: the name is pushed, the value left pending. */
  lemma {:induction false} OneHeader(s: ContextState, r: HeaderRun)
    requires s.headerName == [] && Filled(r)
    ensures Replay(s, RunEvents(r)) ==
      ContextState(s.url, s.headers + Pending(s.headerValue) + [Concat(r.name)], [], Concat(r.value))
  {
    ConcatNonEmpty(r.name);
    ConcatNonEmpty(r.value);
    var named := Replay(s, FieldParts(r.name));
    FieldRun(s, r.name);
    assert named == ContextState(s.url, s.headers + Pending(s.headerValue), Concat(r.name), []);
    ValueRun(named, r.value);
    ReplayAppend(s, FieldParts(r.name), ValueParts(r.value));
  }

  /** While headers arrive, `headers` plus the pending value is the reassembled list. */
  lemma {:induction false} HeaderRunsReassemble(s: ContextState, runs: seq<HeaderRun>)
    requires s.headerName == []
    requires forall k :: 0 <= k < |runs| ==> Filled(runs[k])
    ensures var t := Replay(s, HeaderEvents(runs));
      && t.headerName == [] && t.url == s.url
      && t.headers + Pending(t.headerValue) == s.headers + Pending(s.headerValue) + Pairs(runs)
    decreases |runs|
  {
    if runs != [] {
      var r := runs[0];
      assert Filled(r);
      OneHeader(s, r);
      var t0 := Replay(s, RunEvents(r));
      assert Pending(t0.headerValue) == [Concat(r.value)];
      assert HeaderEvents(runs) == RunEvents(r) + HeaderEvents(runs[1..]);
      ReplayAppend(s, RunEvents(r), HeaderEvents(runs[1..]));
      HeaderRunsReassemble(t0, runs[1..]);
      assert Pairs(runs) == [Concat(r.name), Concat(r.value)] + Pairs(runs[1..]);
    }
  }

  /**
   * Reassembly: from an empty pair of accumulators, a message whose headers all have text
   * leaves `headers` as the alternating list of reassembled names and values once the header
   * block ends, and both accumulators empty.
   */
  lemma {:induction false} Reassembly(s: ContextState, runs: seq<HeaderRun>)
    requires s.headerName == [] && s.headerValue == []
    requires forall k :: 0 <= k < |runs| ==> Filled(runs[k])
    ensures var t := AfterHeadersComplete(Replay(s, HeaderEvents(runs)));
      t == s.(headers := s.headers + Pairs(runs))
  {
    HeaderRunsReassemble(s, runs);
    var t := Replay(s, HeaderEvents(runs));
    assert AfterHeadersComplete(t).headers == t.headers + Pending(t.headerValue);
  }

  /**
   * As written, a header with an empty value is lost: the value is never pushed, so the next
   * name follows the previous name and the list no longer alternates.
   */
  lemma EmptyValueBreaksAlternation()
    ensures var runs := [HeaderRun([[0x41]], [[]]), HeaderRun([[0x42]], [[0x31]])];
      && Pairs(runs) == [[0x41], [], [0x42], [0x31]]
      && AfterHeadersComplete(Replay(Initial, HeaderEvents(runs))).headers == [[0x41], [0x42], [0x31]]
  {
    var a, b, one: Bytes := [0x41], [0x42], [0x31];
    var runs := [HeaderRun([a], [[]]), HeaderRun([b], [one])];
    TwoRunsPairs(runs);
    TwoRunsEvents(runs);
    EmptyValueReplay(a, b, one);
  }

  /** The pairs of the two runs of the counterexample. */
  lemma TwoRunsPairs(runs: seq<HeaderRun>)
    requires runs == [HeaderRun([[0x41]], [[]]), HeaderRun([[0x42]], [[0x31]])]
    ensures Pairs(runs) == [[0x41], [], [0x42], [0x31]]
  {
    var a, b, one: Bytes := [0x41], [0x42], [0x31];
    assert Concat([a]) == a && Concat([b]) == b && Concat([one]) == one && Concat([[]]) == [];
    assert runs[1..][1..] == [];
    assert Pairs(runs[1..]) == [b, one];
  }

  /** The handler events of the two runs of the counterexample. */
  lemma TwoRunsEvents(runs: seq<HeaderRun>)
    requires runs == [HeaderRun([[0x41]], [[]]), HeaderRun([[0x42]], [[0x31]])]
    ensures HeaderEvents(runs) == [FieldPart([0x41]), ValuePart([]), FieldPart([0x42]), ValuePart([0x31])]
  {
    var a, b, one: Bytes := [0x41], [0x42], [0x31];
    assert runs[1..][1..] == [];
    assert FieldParts([a]) == [FieldPart(a)] && FieldParts([b]) == [FieldPart(b)];
    assert ValueParts([[]]) == [ValuePart([])] && ValueParts([one]) == [ValuePart(one)];
    assert HeaderEvents(runs[1..]) == [FieldPart(b), ValuePart(one)];
  }

  /** Replaying name, empty value, name, value: the empty value is never pushed. */
  lemma EmptyValueReplay(a: Bytes, b: Bytes, one: Bytes)
    requires a != [] && b != [] && one != []
    ensures Replay(Initial, [FieldPart(a), ValuePart([]), FieldPart(b), ValuePart(one)])
      == ContextState([], [a, b], [], one)
  {
    var s1 := AfterField(Initial, a);
    assert s1 == ContextState([], [], a, []);
    var s2 := AfterValue(s1, []);
    assert s2 == ContextState([], [a], [], []);
    var s3 := AfterField(s2, b);
    assert s3 == ContextState([], [a], b, []);
    var s4 := AfterValue(s3, one);
    assert s4 == ContextState([], [a, b], [], one);
    assert Replay(s4, []) == s4;
    assert Replay(s3, [ValuePart(one)]) == s4;
    assert Replay(s2, [FieldPart(b), ValuePart(one)]) == s4;
    assert Replay(s1, [ValuePart([]), FieldPart(b), ValuePart(one)]) == s4;
  }

  // ---------------------------------------------------------------------------------------
  // The evidently intended hand-off
  // ---------------------------------------------------------------------------------------

  /**
   * The accumulators with a flag that remembers whether the last header fragment was a value,
   * so that the hand-off happens on every change from names to values and back, whether or
   * not the accumulator has text.
   */
  datatype HandOff = HandOff(headers: seq<Bytes>, headerName: Bytes, headerValue: Bytes, inValue: bool)

  const HandOffInitial: HandOff := HandOff([], [], [], false)

  function HandOffApply(s: HandOff, f: Fragment): HandOff
  {
    match f
    case UrlPart(_) => s
    case FieldPart(b) =>
      if s.inValue then HandOff(s.headers + [s.headerValue], b, [], false)
      else s.(headerName := s.headerName + b)
    case ValuePart(b) =>
      if s.inValue then s.(headerValue := s.headerValue + b)
      else HandOff(s.headers + [s.headerName], [], b, true)
  }

  function HandOffReplay(s: HandOff, fs: seq<Fragment>): HandOff
    decreases |fs|
  {
    if fs == [] then s else HandOffReplay(HandOffApply(s, fs[0]), fs[1..])
  }

  function HandOffComplete(s: HandOff): HandOff
  {
    if s.inValue then HandOff(s.headers + [s.headerValue], s.headerName, [], false) else s
  }

  lemma {:induction false} HandOffReplayAppend(s: HandOff, a: seq<Fragment>, b: seq<Fragment>)
    ensures HandOffReplay(s, a + b) == HandOffReplay(HandOffReplay(s, a), b)
    decreases |a|
  {
    if a == [] {
      assert a + b == b;
    } else {
      assert (a + b)[0] == a[0] && (a + b)[1..] == a[1..] + b;
      HandOffReplayAppend(HandOffApply(s, a[0]), a[1..], b);
    }
  }

  lemma {:induction false} HandOffFieldRun(s: HandOff, parts: seq<Bytes>)
    requires parts != []
    ensures HandOffReplay(s, FieldParts(parts)) ==
      if s.inValue then HandOff(s.headers + [s.headerValue], Concat(parts), [], false)
      else s.(headerName := s.headerName + Concat(parts))
    decreases |parts|
  {
    var s1 := HandOffApply(s, FieldPart(parts[0]));
    if parts[1..] == [] {
      assert Concat(parts) == parts[0];
    } else {
      HandOffFieldRun(s1, parts[1..]);
      assert s.headerName + parts[0] + Concat(parts[1..]) == s.headerName + (parts[0] + Concat(parts[1..]));
    }
  }

  lemma {:induction false} HandOffValueRun(s: HandOff, parts: seq<Bytes>)
    requires parts != []
    ensures HandOffReplay(s, ValueParts(parts)) ==
      if s.inValue then s.(headerValue := s.headerValue + Concat(parts))
      else HandOff(s.headers + [s.headerName], [], Concat(parts), true)
    decreases |parts|
  {
    var s1 := HandOffApply(s, ValuePart(parts[0]));
    if parts[1..] == [] {
      assert Concat(parts) == parts[0];
    } else {
      HandOffValueRun(s1, parts[1..]);
      assert s.headerValue + parts[0] + Concat(parts[1..]) == s.headerValue + (parts[0] + Concat(parts[1..]));
    }
  }

  /** The pending state between headers: a value is being collected, or nothing at all. */
  function HandOffFlushed(s: HandOff): seq<Bytes>
  {
    if s.inValue then s.headers + [s.headerValue] else s.headers
  }

  /** One header, with the hand-off: the name is pushed, the value left pending. */
  lemma {:induction false} OneHandOffHeader(s: HandOff, r: HeaderRun)
    requires s.headerName == [] && (s.inValue || s.headerValue == [])
    requires r.name != [] && r.value != []
    ensures HandOffReplay(s, RunEvents(r)) ==
      HandOff(HandOffFlushed(s) + [Concat(r.name)], [], Concat(r.value), true)
  {
    var named := HandOffReplay(s, FieldParts(r.name));
    HandOffFieldRun(s, r.name);
    assert named == HandOff(HandOffFlushed(s), Concat(r.name), [], false);
    HandOffValueRun(named, r.value);
    HandOffReplayAppend(s, FieldParts(r.name), ValueParts(r.value));
  }

  lemma {:induction false} HandOffRunsReassemble(s: HandOff, runs: seq<HeaderRun>)
    requires s.headerName == [] && (s.inValue || s.headerValue == [])
    requires forall k :: 0 <= k < |runs| ==> runs[k].name != [] && runs[k].value != []
    ensures var t := HandOffReplay(s, HeaderEvents(runs));
      && t.headerName == [] && (t.inValue || t.headerValue == [])
      && HandOffFlushed(t) == HandOffFlushed(s) + Pairs(runs)
    decreases |runs|
  {
    if runs != [] {
      var r := runs[0];
      assert r.name != [] && r.value != [];
      OneHandOffHeader(s, r);
      var t0 := HandOffReplay(s, RunEvents(r));
      assert HandOffFlushed(t0) == HandOffFlushed(s) + [Concat(r.name), Concat(r.value)];
      assert HeaderEvents(runs) == RunEvents(r) + HeaderEvents(runs[1..]);
      HandOffReplayAppend(s, RunEvents(r), HeaderEvents(runs[1..]));
      HandOffRunsReassemble(t0, runs[1..]);
      assert Pairs(runs) == [Concat(r.name), Concat(r.value)] + Pairs(runs[1..]);
    }
  }

  /**
   * With the hand-off on every change of role, every header that has at least one name and
   * one value fragment is reassembled, even when its value is empty.
   */
  lemma {:induction false} HandOffReassembly(runs: seq<HeaderRun>)
    requires forall k :: 0 <= k < |runs| ==> runs[k].name != [] && runs[k].value != []
    ensures HandOffComplete(HandOffReplay(HandOffInitial, HeaderEvents(runs))).headers == Pairs(runs)
  {
    HandOffRunsReassemble(HandOffInitial, runs);
  }

  // ---------------------------------------------------------------------------------------
  // The context object
  // ---------------------------------------------------------------------------------------

  /** The context object of the example server; the parser calls its `on_*` methods. */
  class Context {
    var url: Bytes
    var headers: seq<Bytes>
    var headerName: Bytes
    var headerValue: Bytes

    function State(): ContextState
      reads this
    {
      ContextState(url, headers, headerName, headerValue)
    }

    ghost predicate Valid()
      reads this
    {
      NeverBothPending(State())
    }

    /** `new Context`: a reset context. */
    constructor ()
      ensures Valid() && State() == Initial
    {
      new;
      Reset();
    }

    method Reset()
      modifies this
      ensures Valid() && State() == Initial
    {
      url := [];
      headers := [];
      headerName := [];
      headerValue := [];
    }

    method OnUrl(buf: Bytes, start: nat, len: nat)
      requires Valid()
      requires start + len <= |buf|
      modifies this
      ensures Valid() && State() == AfterUrl(old(State()), buf[start .. start + len])
    {
      url := url + buf[start .. start + len];
    }

    method OnHeaderField(buf: Bytes, start: nat, len: nat)
      requires start + len <= |buf|
      modifies this
      ensures Valid() && State() == AfterField(old(State()), buf[start .. start + len])
    {
      headerName := headerName + buf[start .. start + len];
      if headerValue == [] {
        return;
      }
      headers := headers + [headerValue];
      headerValue := [];
    }

    method OnHeaderValue(buf: Bytes, start: nat, len: nat)
      requires start + len <= |buf|
      modifies this
      ensures Valid() && State() == AfterValue(old(State()), buf[start .. start + len])
    {
      headerValue := headerValue + buf[start .. start + len];
      if headerName == [] {
        return;
      }
      headers := headers + [headerName];
      headerName := [];
    }

    method OnHeadersComplete()
      requires Valid()
      modifies this
      ensures Valid() && State() == AfterHeadersComplete(old(State()))
    {
      if headerValue == [] {
        return;
      }
      headers := headers + [headerValue];
      headerValue := [];
    }

    /** `on_body` changes nothing; it hands the span's bytes to the `data` listener. */
    method OnBody(buf: Bytes, start: nat, len: nat) returns (data: Bytes)
      requires start + len <= |buf|
      ensures |data| == len && forall k :: 0 <= k < len ==> data[k] == buf[start + k]
    {
      data := buf[start .. start + len];
    }

    /** `on_message_complete` resets the context for the next message. */
    method OnMessageComplete()
      modifies this
      ensures Valid() && State() == Initial
    {
      Reset();
    }
  }
}
