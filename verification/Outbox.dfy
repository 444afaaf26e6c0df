/** The binary form of an execution outcome in the result outbox. */
module Outbox {
  import opened Wrappers
  import opened Bytes
  import opened Text
  import opened Language
  import opened Manifests
  import opened Executor

  datatype DaemonError =
    | ChainUnavailable
    | InvalidChainResponse
    | NoSuchFunction
    | InvalidPublicInputs
    | InvalidPrivateInputs
    | UnsupportedParameter
    | InvalidOutput
    | OutputTooLarge
    | Runtime(error: RuntimeError)

  const U32: int := 0x1_0000_0000

  function Header(): (h: seq<Byte>) { Utf8("PPSC_MANIFEST_OUTBOX_V1") }

  function TypeTag(ty: ValueType): (r: Result<Byte, DaemonError>) {
    match ty
    case Address => Ok(0)
    case Uint => Ok(1)
    case FheUint => Ok(2)
    case FheBool => Ok(3)
    case Sint => Ok(4)
    case SecretBool => Ok(5)
    case Opened => Ok(6)
    case Void => Err(InvalidOutput)
  }

  function TypeOfTag(tag: Byte): (r: Result<ValueType, DaemonError>) {
    if tag == 0 then Ok(Address)
    else if tag == 1 then Ok(Uint)
    else if tag == 2 then Ok(FheUint)
    else if tag == 3 then Ok(FheBool)
    else if tag == 4 then Ok(Sint)
    else if tag == 5 then Ok(SecretBool)
    else if tag == 6 then Ok(Opened)
    else Err(InvalidOutput)
  }

  // ---- encoding ----

  function LengthBytes(n: nat): (r: Result<seq<Byte>, DaemonError>) {
    if n < U32 then Ok(BigEndian(n, 4)) else Err(OutputTooLarge)
  }

  function SizedBytes(b: seq<Byte>): (r: Result<seq<Byte>, DaemonError>) {
    var n :- LengthBytes(|b|);
    Ok(n + b)
  }

  function ValueBytes(v: Value): (r: Result<seq<Byte>, DaemonError>) {
    var tag :- TypeTag(v.ty);
    var body :- SizedBytes(v.bytes);
    Ok([tag] + body)
  }

  function WriteBytes(w: StateWrite): (r: Result<seq<Byte>, DaemonError>) {
    var state :- SizedBytes(Utf8(w.state));
    var key :- SizedBytes(w.key);
    var value :- ValueBytes(w.value);
    Ok(state + key + value)
  }

  // The first k writes.
  function AllWrites(writes: seq<StateWrite>, k: nat): (r: Result<seq<Byte>, DaemonError>)
    requires k <= |writes|
  {
    if k == 0 then Ok([])
    else
      var init :- AllWrites(writes, k - 1);
      var last :- WriteBytes(writes[k - 1]);
      Ok(init + last)
  }

  function AllCalls(calls: seq<HostCall>, k: nat): (r: Result<seq<Byte>, DaemonError>)
    requires k <= |calls|
  {
    if k == 0 then Ok([])
    else
      var init :- AllCalls(calls, k - 1);
      var last :- SizedBytes(Utf8(OpcodeText(calls[k - 1].opcode)));
      Ok(init + last)
  }

  function OpeningBytes(opening: Option<Value>): (r: Result<seq<Byte>, DaemonError>) {
    match opening
    case None => Ok([0])
    case Some(v) =>
      var body :- ValueBytes(v);
      Ok([1] + body)
  }

  function Encode(id: seq<Byte>, o: Outcome): (r: Result<seq<Byte>, DaemonError>) {
    var writeCount :- LengthBytes(|o.writes|);
    var writes :- AllWrites(o.writes, |o.writes|);
    var callCount :- LengthBytes(|o.hostCalls|);
    var calls :- AllCalls(o.hostCalls, |o.hostCalls|);
    var opening :- OpeningBytes(o.opening);
    Ok(Header() + id + writeCount + writes + callCount + calls + opening)
  }

  // The appending loops of the implementation.
  method EncodeLoop(id: seq<Byte>, o: Outcome) returns (r: Result<seq<Byte>, DaemonError>)
    ensures r == Encode(id, o)
  {
    hide WriteBytes, SizedBytes, OpeningBytes, Header, LengthBytes;
    var payload := Header() + id;
    var count := LengthBytes(|o.writes|);
    if count.Err? { return Err(count.error); }
    payload := payload + count.value;
    ghost var start := payload;
    for k := 0 to |o.writes|
      invariant AllWrites(o.writes, k).Ok? && payload == start + AllWrites(o.writes, k).value
    {
      var w := WriteBytes(o.writes[k]);
      if w.Err? {
        AllWritesFails(o.writes, k + 1, |o.writes|);
        return Err(w.error);
      }
      payload := payload + w.value;
      assert (start + AllWrites(o.writes, k).value) + w.value == start + (AllWrites(o.writes, k).value + w.value);
    }
    count := LengthBytes(|o.hostCalls|);
    if count.Err? { return Err(count.error); }
    payload := payload + count.value;
    start := payload;
    for k := 0 to |o.hostCalls|
      invariant AllCalls(o.hostCalls, k).Ok? && payload == start + AllCalls(o.hostCalls, k).value
    {
      var c := SizedBytes(Utf8(OpcodeText(o.hostCalls[k].opcode)));
      if c.Err? {
        AllCallsFails(o.hostCalls, k + 1, |o.hostCalls|);
        return Err(c.error);
      }
      payload := payload + c.value;
      assert (start + AllCalls(o.hostCalls, k).value) + c.value == start + (AllCalls(o.hostCalls, k).value + c.value);
    }
    var opening := OpeningBytes(o.opening);
    if opening.Err? { return Err(opening.error); }
    return Ok(payload + opening.value);
  }

  lemma {:induction false} AllWritesFails(writes: seq<StateWrite>, k: nat, m: nat)
    requires k <= m <= |writes| && AllWrites(writes, k).Err?
    ensures AllWrites(writes, m) == AllWrites(writes, k)
    decreases m
  {
    hide WriteBytes;
    if k < m { AllWritesFails(writes, k, m - 1); }
  }

  lemma {:induction false} AllCallsFails(calls: seq<HostCall>, k: nat, m: nat)
    requires k <= m <= |calls| && AllCalls(calls, k).Err?
    ensures AllCalls(calls, m) == AllCalls(calls, k)
    decreases m
  {
    hide SizedBytes;
    if k < m { AllCallsFails(calls, k, m - 1); }
  }

  // ---- decoding: each reader takes a value off the front and leaves the rest ----

  datatype Parsed<+T> = Parsed(value: T, rest: seq<Byte>)

  datatype DecodedWrite = DecodedWrite(state: string, key: seq<Byte>, value: Value)

  datatype DecodedOutbox = DecodedOutbox(id: seq<Byte>, writes: seq<DecodedWrite>, opening: Option<Value>)

  function Take(b: seq<Byte>, n: nat): (r: Result<Parsed<seq<Byte>>, DaemonError>) {
    if n <= |b| then Ok(Parsed(b[..n], b[n..])) else Err(InvalidOutput)
  }

  function TakeCount(b: seq<Byte>): (r: Result<Parsed<nat>, DaemonError>) {
    var p :- Take(b, 4);
    Ok(Parsed(FromBigEndian(p.value), p.rest))
  }

  function TakeSized(b: seq<Byte>): (r: Result<Parsed<seq<Byte>>, DaemonError>) {
    var n :- TakeCount(b);
    Take(n.rest, n.value)
  }

  predicate ProtectedType(ty: ValueType) {
    ty == FheUint || ty == FheBool || ty == Sint || ty == SecretBool || ty == Opened
  }

  predicate ProtectedValue(v: Value) { ProtectedType(v.ty) && v.bytes != [] }

  function Protected(ty: ValueType, bytes: seq<Byte>): (r: Result<Value, DaemonError>) {
    if !ProtectedType(ty) || bytes == [] then Err(Runtime(InvalidValue)) else Ok(Value(ty, bytes))
  }

  function TakeValue(b: seq<Byte>): (r: Result<Parsed<Value>, DaemonError>) {
    var t :- Take(b, 1);
    var ty :- TypeOfTag(t.value[0]);
    var bytes :- TakeSized(t.rest);
    var v :- Protected(ty, bytes.value);
    Ok(Parsed(v, bytes.rest))
  }

  function TakeName(b: seq<Byte>): (r: Result<Parsed<string>, DaemonError>) {
    var p :- TakeSized(b);
    match FromUtf8(p.value)
    case Some(s) => Ok(Parsed(s, p.rest))
    case None => Err(InvalidOutput)
  }

  function TakeWrite(b: seq<Byte>): (r: Result<Parsed<DecodedWrite>, DaemonError>) {
    var state :- TakeName(b);
    var key :- TakeSized(state.rest);
    var value :- TakeValue(key.rest);
    Ok(Parsed(DecodedWrite(state.value, key.value, value.value), value.rest))
  }

  function TakeWrites(b: seq<Byte>, count: nat): (r: Result<Parsed<seq<DecodedWrite>>, DaemonError>)
    ensures r.Ok? ==> |r.value.value| == count
  {
    if count == 0 then Ok(Parsed([], b))
    else
      var init :- TakeWrites(b, count - 1);
      var last :- TakeWrite(init.rest);
      Ok(Parsed(init.value + [last.value], last.rest))
  }

  function SkipCalls(b: seq<Byte>, count: nat): (r: Result<Parsed<()>, DaemonError>) {
    if count == 0 then Ok(Parsed((), b))
    else
      var init :- SkipCalls(b, count - 1);
      var last :- TakeSized(init.rest);
      Ok(Parsed((), last.rest))
  }

  function TakeOpening(b: seq<Byte>): (r: Result<Parsed<Option<Value>>, DaemonError>) {
    var flag :- Take(b, 1);
    if flag.value[0] == 0 then Ok(Parsed(None, flag.rest))
    else if flag.value[0] == 1 then
      var v :- TakeValue(flag.rest);
      Ok(Parsed(Some(v.value), v.rest))
    else Err(InvalidOutput)
  }

  // Everything after the header, not yet requiring that nothing is left.
  function TakeBody(b: seq<Byte>): (r: Result<Parsed<DecodedOutbox>, DaemonError>) {
    var id :- Take(b, 32);
    var writeCount :- TakeCount(id.rest);
    var writes :- TakeWrites(writeCount.rest, writeCount.value);
    var callCount :- TakeCount(writes.rest);
    var calls :- SkipCalls(callCount.rest, callCount.value);
    var opening :- TakeOpening(calls.rest);
    Ok(Parsed(DecodedOutbox(id.value, writes.value, opening.value), opening.rest))
  }

  function Decode(payload: seq<Byte>): (r: Result<DecodedOutbox, DaemonError>) {
    if !(Header() <= payload) then Err(InvalidOutput)
    else
      var p :- TakeBody(payload[|Header()|..]);
      if p.rest != [] then Err(InvalidOutput) else Ok(p.value)
  }

  // ---- the cursor the implementation moves over the payload ----

  class Reader {
    const payload: seq<Byte>
    var cursor: nat

    predicate Valid()
      reads this
    {
      cursor <= |payload|
    }

    function Rest(): (b: seq<Byte>)
      requires Valid()
      reads this
    {
      payload[cursor..]
    }

    constructor (payload: seq<Byte>, cursor: nat)
      requires cursor <= |payload|
      ensures Valid() && this.payload == payload && this.cursor == cursor
    {
      this.payload, this.cursor := payload, cursor;
    }

    method TakeNext(length: nat) returns (r: Result<seq<Byte>, DaemonError>)
      requires Valid()
      modifies this
      ensures Valid()
      ensures match Take(old(Rest()), length)
              case Err(e) => r == Err(e)
              case Ok(p) => r == Ok(p.value) && Rest() == p.rest
    {
      var end := cursor + length;
      if end > |payload| { return Err(InvalidOutput); }
      assert Rest()[..length] == payload[cursor..end] && Rest()[length..] == payload[end..];
      r := Ok(payload[cursor..end]);
      cursor := end;
    }

    method TakeU32() returns (r: Result<nat, DaemonError>)
      requires Valid()
      modifies this
      ensures Valid()
      ensures match TakeCount(old(Rest()))
              case Err(e) => r == Err(e)
              case Ok(p) => r == Ok(p.value) && Rest() == p.rest
    {
      var b := TakeNext(4);
      if b.Err? { return Err(b.error); }
      return Ok(FromBigEndian(b.value));
    }

    method TakeSizedNext() returns (r: Result<seq<Byte>, DaemonError>)
      requires Valid()
      modifies this
      ensures Valid()
      ensures match TakeSized(old(Rest()))
              case Err(e) => r == Err(e)
              case Ok(p) => r == Ok(p.value) && Rest() == p.rest
    {
      var length := TakeU32();
      if length.Err? { return Err(length.error); }
      r := TakeNext(length.value);
    }

    method TakeValueNext() returns (r: Result<Value, DaemonError>)
      requires Valid()
      modifies this
      ensures Valid()
      ensures match TakeValue(old(Rest()))
              case Err(e) => r == Err(e)
              case Ok(p) => r == Ok(p.value) && Rest() == p.rest
    {
      hide TakeSized;
      var tag := TakeNext(1);
      if tag.Err? { return Err(tag.error); }
      var ty := TypeOfTag(tag.value[0]);
      if ty.Err? { return Err(ty.error); }
      var bytes := TakeSizedNext();
      if bytes.Err? { return Err(bytes.error); }
      return Protected(ty.value, bytes.value);
    }

    method TakeWriteNext() returns (r: Result<DecodedWrite, DaemonError>)
      requires Valid()
      modifies this
      ensures Valid()
      ensures match TakeWrite(old(Rest()))
              case Err(e) => r == Err(e)
              case Ok(p) => r == Ok(p.value) && Rest() == p.rest
    {
      hide TakeSized, TakeValue, FromUtf8;
      var name := TakeSizedNext();
      if name.Err? { return Err(name.error); }
      var state := FromUtf8(name.value);
      if state.None? { return Err(InvalidOutput); }
      var key := TakeSizedNext();
      if key.Err? { return Err(key.error); }
      var value := TakeValueNext();
      if value.Err? { return Err(value.error); }
      return Ok(DecodedWrite(state.value, key.value, value.value));
    }

    method TakeAllWrites(count: nat) returns (r: Result<seq<DecodedWrite>, DaemonError>)
      requires Valid()
      modifies this
      ensures Valid()
      ensures match TakeWrites(old(Rest()), count)
              case Err(e) => r == Err(e)
              case Ok(p) => r == Ok(p.value) && Rest() == p.rest
    {
      hide TakeWrite;
      ghost var start := Rest();
      var writes := [];
      for k := 0 to count
        invariant Valid() && TakeWrites(start, k) == Ok(Parsed(writes, Rest()))
      {
        var w := TakeWriteNext();
        if w.Err? {
          WritesFail(start, k + 1, count);
          return Err(w.error);
        }
        writes := writes + [w.value];
      }
      return Ok(writes);
    }

    method SkipAllCalls(count: nat) returns (r: Result<(), DaemonError>)
      requires Valid()
      modifies this
      ensures Valid()
      ensures match SkipCalls(old(Rest()), count)
              case Err(e) => r == Err(e)
              case Ok(p) => r == Ok(()) && Rest() == p.rest
    {
      hide TakeSized;
      ghost var start := Rest();
      for k := 0 to count
        invariant Valid() && SkipCalls(start, k) == Ok(Parsed((), Rest()))
      {
        var c := TakeSizedNext();
        if c.Err? {
          CallsFail(start, k + 1, count);
          return Err(c.error);
        }
      }
      return Ok(());
    }

    method TakeOpeningNext() returns (r: Result<Option<Value>, DaemonError>)
      requires Valid()
      modifies this
      ensures Valid()
      ensures match TakeOpening(old(Rest()))
              case Err(e) => r == Err(e)
              case Ok(p) => r == Ok(p.value) && Rest() == p.rest
    {
      hide TakeValue;
      var flag := TakeNext(1);
      if flag.Err? { return Err(flag.error); }
      if flag.value[0] == 0 { return Ok(None); }
      if flag.value[0] != 1 { return Err(InvalidOutput); }
      var v := TakeValueNext();
      if v.Err? { return Err(v.error); }
      return Ok(Some(v.value));
    }
  }

  method DecodeLoop(payload: seq<Byte>) returns (r: Result<DecodedOutbox, DaemonError>)
    ensures r == Decode(payload)
  {
    hide TakeWrites, SkipCalls, TakeOpening, TakeCount, Take, Header;
    var header := Header();
    if !(header <= payload) { return Err(InvalidOutput); }
    var reader := new Reader(payload, |header|);
    var id := reader.TakeNext(32);
    if id.Err? { return Err(id.error); }
    var writeCount := reader.TakeU32();
    if writeCount.Err? { return Err(writeCount.error); }
    var writes := reader.TakeAllWrites(writeCount.value);
    if writes.Err? { return Err(writes.error); }
    var callCount := reader.TakeU32();
    if callCount.Err? { return Err(callCount.error); }
    var calls := reader.SkipAllCalls(callCount.value);
    if calls.Err? { return Err(calls.error); }
    var opening := reader.TakeOpeningNext();
    if opening.Err? { return Err(opening.error); }
    if reader.cursor != |payload| { return Err(InvalidOutput); }
    return Ok(DecodedOutbox(id.value, writes.value, opening.value));
  }

  lemma {:induction false} WritesFail(b: seq<Byte>, k: nat, m: nat)
    requires k <= m && TakeWrites(b, k).Err?
    ensures TakeWrites(b, m) == Err(TakeWrites(b, k).error)
    decreases m
  {
    hide TakeWrite;
    if k < m { WritesFail(b, k, m - 1); }
  }

  lemma {:induction false} CallsFail(b: seq<Byte>, k: nat, m: nat)
    requires k <= m && SkipCalls(b, k).Err?
    ensures SkipCalls(b, m) == Err(SkipCalls(b, k).error)
    decreases m
  {
    hide TakeSized;
    if k < m { CallsFail(b, k, m - 1); }
  }

  // ---- round trip ----

  // What is encoded in front of anything is read back, and the rest is left.
  lemma TakeWritten(b: seq<Byte>, rest: seq<Byte>)
    ensures Take(b + rest, |b|) == Ok(Parsed(b, rest))
  {
    assert (b + rest)[..|b|] == b && (b + rest)[|b|..] == rest;
  }

  lemma CountWritten(n: nat, rest: seq<Byte>)
    requires n < U32
    ensures TakeCount(BigEndian(n, 4) + rest) == Ok(Parsed(n, rest))
  {
    Width4();
    ReadBack(n, 4);
    TakeWritten(BigEndian(n, 4), rest);
    hide BigEndian, FromBigEndian;
  }

  lemma SizedWritten(b: seq<Byte>, rest: seq<Byte>)
    requires SizedBytes(b).Ok?
    ensures TakeSized(SizedBytes(b).value + rest) == Ok(Parsed(b, rest))
  {
    hide BigEndian, TakeCount, Take;
    CountWritten(|b|, b + rest);
    TakeWritten(b, rest);
    assert SizedBytes(b).value + rest == BigEndian(|b|, 4) + (b + rest);
  }

  lemma TagWritten(ty: ValueType)
    requires TypeTag(ty).Ok?
    ensures TypeOfTag(TypeTag(ty).value) == Ok(ty)
  {
  }

  // Exactly the protected values are read back.
  lemma ValueWritten(v: Value, rest: seq<Byte>)
    requires ValueBytes(v).Ok?
    ensures TakeValue(ValueBytes(v).value + rest) == if ProtectedValue(v) then Ok(Parsed(v, rest))
        else Err(Runtime(InvalidValue))
  {
    hide SizedBytes, TakeSized;
    var tag, body := TypeTag(v.ty).value, SizedBytes(v.bytes).value;
    TakeWritten([tag], body + rest);
    assert ValueBytes(v).value + rest == [tag] + (body + rest);
    TagWritten(v.ty);
    SizedWritten(v.bytes, rest);
  }

  function Written(w: StateWrite): (d: DecodedWrite) { DecodedWrite(w.state, w.key, w.value) }

  lemma WriteWritten(w: StateWrite, rest: seq<Byte>)
    requires WriteBytes(w).Ok?
    ensures TakeWrite(WriteBytes(w).value + rest) == if ProtectedValue(w.value) then Ok(Parsed(Written(w), rest))
        else Err(Runtime(InvalidValue))
  {
    hide SizedBytes, TakeSized, ValueBytes, TakeValue, Utf8, FromUtf8, ProtectedValue;
    var state, key, value := SizedBytes(Utf8(w.state)).value, SizedBytes(w.key).value, ValueBytes(w.value).value;
    assert WriteBytes(w).value + rest == state + (key + (value + rest));
    SizedWritten(Utf8(w.state), key + (value + rest));
    Utf8RoundTrip(w.state);
    SizedWritten(w.key, value + rest);
    ValueWritten(w.value, rest);
  }

  predicate AllProtected(writes: seq<StateWrite>, k: nat)
    requires k <= |writes|
  {
    forall i :: 0 <= i < k ==> ProtectedValue(writes[i].value)
  }

  function WrittenAll(writes: seq<StateWrite>, k: nat): (d: seq<DecodedWrite>)
    requires k <= |writes|
    ensures |d| == k
  {
    seq(k, i requires 0 <= i < k => Written(writes[i]))
  }

  lemma {:induction false} WritesWritten(writes: seq<StateWrite>, k: nat, rest: seq<Byte>)
    requires k <= |writes| && AllWrites(writes, k).Ok?
    ensures AllProtected(writes, k)
        ==> TakeWrites(AllWrites(writes, k).value + rest, k) == Ok(Parsed(WrittenAll(writes, k), rest))
    ensures !AllProtected(writes, k) ==> TakeWrites(AllWrites(writes, k).value + rest, k) == Err(Runtime(InvalidValue))
  {
    hide WriteBytes, TakeWrite, ProtectedValue;
    if k == 0 {
      assert [] + rest == rest;
    } else {
      var init, last := AllWrites(writes, k - 1).value, WriteBytes(writes[k - 1]).value;
      WritesWritten(writes, k - 1, last + rest);
      assert AllWrites(writes, k).value + rest == init + (last + rest);
      WriteWritten(writes[k - 1], rest);
      assert WrittenAll(writes, k) == WrittenAll(writes, k - 1) + [Written(writes[k - 1])];
    }
  }

  lemma {:induction false} CallsWritten(calls: seq<HostCall>, k: nat, rest: seq<Byte>)
    requires k <= |calls| && AllCalls(calls, k).Ok?
    ensures SkipCalls(AllCalls(calls, k).value + rest, k) == Ok(Parsed((), rest))
  {
    hide SizedBytes, TakeSized, Utf8, OpcodeText;
    if k == 0 {
      assert [] + rest == rest;
    } else {
      var init, last := AllCalls(calls, k - 1).value, SizedBytes(Utf8(OpcodeText(calls[k - 1].opcode))).value;
      CallsWritten(calls, k - 1, last + rest);
      assert AllCalls(calls, k).value + rest == init + (last + rest);
      SizedWritten(Utf8(OpcodeText(calls[k - 1].opcode)), rest);
    }
  }

  lemma OpeningWritten(opening: Option<Value>)
    requires OpeningBytes(opening).Ok?
    ensures TakeOpening(OpeningBytes(opening).value)
            == if opening.Some? && !ProtectedValue(opening.value) then Err(Runtime(InvalidValue))
                else Ok(Parsed(opening, []))
  {
    hide ValueBytes, TakeValue;
    if opening.Some? {
      ValueWritten(opening.value, []);
      var body := ValueBytes(opening.value).value;
      assert body + [] == body;
      TakeWritten([1], body);
    } else {
      var flag: seq<Byte> := [0];
      assert OpeningBytes(opening).value == flag && flag[..1] == [0] && flag[1..] == [];
    }
  }

  predicate Decodable(o: Outcome) {
    AllProtected(o.writes, |o.writes|) && (o.opening.Some? ==> ProtectedValue(o.opening.value))
  }

  // Round trip: an encoded outcome decodes to its id, writes and opening exactly when all of its
  // values are protected and not empty; otherwise decoding reports an invalid value.
  lemma OutboxRoundTrip(id: seq<Byte>, o: Outcome)
    requires |id| == 32 && Encode(id, o).Ok?
    ensures Decode(Encode(id, o).value)
            == if Decodable(o) then Ok(DecodedOutbox(id, WrittenAll(o.writes, |o.writes|), o.opening))
                else Err(Runtime(InvalidValue))
  {
    hide AllWrites, AllCalls, OpeningBytes, TakeWrites, SkipCalls, TakeOpening, TakeCount, Take, Header;
    hide BigEndian, AllProtected, ProtectedValue;
    var wc, ws := BigEndian(|o.writes|, 4), AllWrites(o.writes, |o.writes|).value;
    var cc, cs := BigEndian(|o.hostCalls|, 4), AllCalls(o.hostCalls, |o.hostCalls|).value;
    var op := OpeningBytes(o.opening).value;
    var payload := Encode(id, o).value;
    assert payload[|Header()|..] == id + (wc + (ws + (cc + (cs + op))));
    TakeWritten(id, wc + (ws + (cc + (cs + op))));
    CountWritten(|o.writes|, ws + (cc + (cs + op)));
    WritesWritten(o.writes, |o.writes|, cc + (cs + op));
    CountWritten(|o.hostCalls|, cs + op);
    CallsWritten(o.hostCalls, |o.hostCalls|, op);
    OpeningWritten(o.opening);
  }

  // ---- no accepted payload is a proper prefix of another ----

  lemma TakeMore(b: seq<Byte>, n: nat, t: seq<Byte>)
    requires Take(b, n).Ok?
    ensures Take(b + t, n) == Ok(Parsed(Take(b, n).value.value, Take(b, n).value.rest + t))
  {
    assert (b + t)[..n] == b[..n] && (b + t)[n..] == b[n..] + t;
  }

  lemma SizedMore(b: seq<Byte>, t: seq<Byte>)
    requires TakeSized(b).Ok?
    ensures TakeSized(b + t) == Ok(Parsed(TakeSized(b).value.value, TakeSized(b).value.rest + t))
  {
    hide FromBigEndian, Take;
    TakeMore(b, 4, t);
    var n := TakeCount(b).value;
    TakeMore(n.rest, n.value, t);
  }

  lemma ValueMore(b: seq<Byte>, t: seq<Byte>)
    requires TakeValue(b).Ok?
    ensures TakeValue(b + t) == Ok(Parsed(TakeValue(b).value.value, TakeValue(b).value.rest + t))
  {
    hide TakeSized;
    TakeMore(b, 1, t);
    SizedMore(Take(b, 1).value.rest, t);
  }

  lemma WriteMore(b: seq<Byte>, t: seq<Byte>)
    requires TakeWrite(b).Ok?
    ensures TakeWrite(b + t) == Ok(Parsed(TakeWrite(b).value.value, TakeWrite(b).value.rest + t))
  {
    hide TakeSized, TakeValue, FromUtf8;
    SizedMore(b, t);
    var state := TakeSized(b).value;
    SizedMore(state.rest, t);
    ValueMore(TakeSized(state.rest).value.rest, t);
  }

  lemma {:induction false} WritesMore(b: seq<Byte>, count: nat, t: seq<Byte>)
    requires TakeWrites(b, count).Ok?
    ensures TakeWrites(b + t, count) == Ok(Parsed(TakeWrites(b, count).value.value,
        TakeWrites(b, count).value.rest + t))
  {
    hide TakeWrite;
    if count > 0 {
      WritesMore(b, count - 1, t);
      WriteMore(TakeWrites(b, count - 1).value.rest, t);
    }
  }

  lemma {:induction false} CallsMore(b: seq<Byte>, count: nat, t: seq<Byte>)
    requires SkipCalls(b, count).Ok?
    ensures SkipCalls(b + t, count) == Ok(Parsed((), SkipCalls(b, count).value.rest + t))
  {
    hide TakeSized;
    if count > 0 {
      CallsMore(b, count - 1, t);
      SizedMore(SkipCalls(b, count - 1).value.rest, t);
    }
  }

  lemma OpeningMore(b: seq<Byte>, t: seq<Byte>)
    requires TakeOpening(b).Ok?
    ensures TakeOpening(b + t) == Ok(Parsed(TakeOpening(b).value.value, TakeOpening(b).value.rest + t))
  {
    hide TakeValue;
    TakeMore(b, 1, t);
    if Take(b, 1).value.value[0] == 1 {
      ValueMore(Take(b, 1).value.rest, t);
    }
  }

  lemma CountMore(b: seq<Byte>, t: seq<Byte>)
    requires TakeCount(b).Ok?
    ensures TakeCount(b + t) == Ok(Parsed(TakeCount(b).value.value, TakeCount(b).value.rest + t))
  {
    hide FromBigEndian, Take;
    TakeMore(b, 4, t);
  }

  lemma BodyMore(b: seq<Byte>, t: seq<Byte>)
    requires TakeBody(b).Ok?
    ensures TakeBody(b + t) == Ok(Parsed(TakeBody(b).value.value, TakeBody(b).value.rest + t))
  {
    hide Take, TakeCount, TakeWrites, SkipCalls, TakeOpening;
    TakeMore(b, 32, t);
    var id := Take(b, 32).value;
    CountMore(id.rest, t);
    var writeCount := TakeCount(id.rest).value;
    WritesMore(writeCount.rest, writeCount.value, t);
    var writes := TakeWrites(writeCount.rest, writeCount.value).value;
    CountMore(writes.rest, t);
    var callCount := TakeCount(writes.rest).value;
    CallsMore(callCount.rest, callCount.value, t);
    OpeningMore(SkipCalls(callCount.rest, callCount.value).value.rest, t);
  }

  lemma PrefixFree(a: seq<Byte>, b: seq<Byte>)
    requires a < b && Decode(a).Ok?
    ensures Decode(b) == Err(InvalidOutput)
  {
    hide TakeBody, Header;
    var h := |Header()|;
    var t := b[|a|..];
    assert b[h..] == a[h..] + t;
    BodyMore(a[h..], t);
  }

  // A payload begins with its name and the execution id; too many writes or calls do not encode.
  lemma PayloadBegins(id: seq<Byte>, o: Outcome)
    ensures Encode(id, o).Ok? ==> Utf8("PPSC_MANIFEST_OUTBOX_V1") + id <= Encode(id, o).value
    ensures |o.writes| >= U32 ==> Encode(id, o) == Err(OutputTooLarge)
    ensures AllWrites(o.writes, |o.writes|).Ok? && |o.hostCalls| >= U32 ==> Encode(id, o) == Err(OutputTooLarge)
  {
    hide AllWrites, AllCalls, OpeningBytes, Utf8, BigEndian;
  }
}
