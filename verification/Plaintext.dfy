/** The development backend: values carry their number in the clear behind a type tag. */
module Plaintext {
  import opened Wrappers
  import opened Bytes
  import opened Language
  import opened Manifests
  import opened Executor

  // ASCII text as bytes.
  function Ascii(s: string): (b: seq<Byte>)
    ensures |b| == |s|
  {
    seq(|s|, i requires 0 <= i < |s| => s[i] as int % 256)
  }

  // The tag that starts the bytes of a protected value.
  function Tag(ty: ValueType): (prefix: seq<Byte>) {
    match ty
    case FheUint => Ascii("PPSC_MANIFEST_DEV_FHE_UINT_V1")
    case FheBool => Ascii("PPSC_MANIFEST_DEV_FHE_BOOL_V1")
    case Sint => Ascii("PPSC_MANIFEST_DEV_SS_UINT_V1")
    case SecretBool => Ascii("PPSC_MANIFEST_DEV_SS_BOOL_V1")
    case Opened => Ascii("PPSC_MANIFEST_DEV_OPENED_V1")
    case _ => []
  }

  function EncodeUint(ty: ValueType, n: nat): (v: Value) { Value(ty, Tag(ty) + BigEndian(n, 16)) }

  function EncodeBool(ty: ValueType, b: bool): (v: Value) { Value(ty, Tag(ty) + [if b then 1 else 0]) }

  function DecodeU128(v: Value, tag: seq<Byte>): (r: Result<nat, RuntimeError>) {
    if |v.bytes| != |tag| + 16 || !(tag <= v.bytes) then Err(InvalidValue)
    else Ok(FromBigEndian(v.bytes[|tag|..]))
  }

  function DecodeBool(v: Value, tag: seq<Byte>): (r: Result<bool, RuntimeError>) {
    if |v.bytes| != |tag| + 1 || !(tag <= v.bytes) then Err(InvalidValue)
    else if v.bytes[|tag|] == 0 then Ok(false)
    else if v.bytes[|tag|] == 1 then Ok(true)
    else Err(InvalidValue)
  }

  function PublicU128(v: Value): (r: Result<nat, RuntimeError>) {
    if v.ty != Uint || |v.bytes| != 16 then Err(InvalidValue) else Ok(FromBigEndian(v.bytes))
  }

  function One(args: seq<Value>): (r: Result<Value, RuntimeError>) {
    if |args| != 1 then Err(InvalidManifest) else Ok(args[0])
  }

  function TwoU128(args: seq<Value>, tag: seq<Byte>): (r: Result<(nat, nat), RuntimeError>) {
    if |args| != 2 then Err(InvalidManifest)
    else
      var a :- DecodeU128(args[0], tag);
      var b :- DecodeU128(args[1], tag);
      Ok((a, b))
  }

  function AddWithin(ty: ValueType, args: seq<Value>): (r: Result<Value, RuntimeError>) {
    var p :- TwoU128(args, Tag(ty));
    if p.0 + p.1 < U128 then Ok(EncodeUint(ty, p.0 + p.1)) else Err(Overflow)
  }

  function SubWithin(ty: ValueType, args: seq<Value>): (r: Result<Value, RuntimeError>) {
    var p :- TwoU128(args, Tag(ty));
    if p.0 >= p.1 then Ok(EncodeUint(ty, p.0 - p.1)) else Err(Underflow)
  }

  function GeWithin(ty: ValueType, out: ValueType, args: seq<Value>): (r: Result<Value, RuntimeError>) {
    var p :- TwoU128(args, Tag(ty));
    Ok(EncodeBool(out, p.0 >= p.1))
  }

  function HomomorphicToShares(args: seq<Value>): (r: Result<Value, RuntimeError>) {
    var v :- One(args);
    match v.ty
    case FheUint =>
      var n :- DecodeU128(v, Tag(FheUint));
      Ok(EncodeUint(Sint, n))
    case FheBool =>
      var b :- DecodeBool(v, Tag(FheBool));
      Ok(EncodeBool(SecretBool, b))
    case _ => Err(TypeMismatch)
  }

  function EvaluatePlain(opcode: Opcode, args: seq<Value>): (r: Result<Value, RuntimeError>) {
    match opcode
    case EvalFheEncrypt =>
      var v :- One(args);
      var n :- PublicU128(v);
      Ok(EncodeUint(FheUint, n))
    case EvalFheAdd => AddWithin(FheUint, args)
    case EvalFheSub => SubWithin(FheUint, args)
    case EvalFheGe => GeWithin(FheUint, FheBool, args)
    case EvalMpcAdd => AddWithin(Sint, args)
    case EvalMpcSub => SubWithin(Sint, args)
    case EvalMpcGe => GeWithin(Sint, SecretBool, args)
    case ConvertH2S => HomomorphicToShares(args)
    case ConvertS2H =>
      var v :- One(args);
      var n :- DecodeU128(v, Tag(Sint));
      Ok(EncodeUint(FheUint, n))
    case _ => Err(UnsupportedOperator)
  }

  function PickPlain(v: Value): (r: Result<Value, RuntimeError>) {
    var n :- DecodeU128(v, Tag(Sint));
    Ok(EncodeUint(Opened, n))
  }

  function PlainBackend(): (k: Backend) {
    Backend(EvaluatePlain, v => DecodeBool(v, Tag(SecretBool)), PickPlain)
  }

  // ---- what the bytes mean ----

  predicate IsNumber(ty: ValueType) { ty == FheUint || ty == Sint || ty == Opened }

  predicate IsTruth(ty: ValueType) { ty == FheBool || ty == SecretBool }

  // A value some constructor of the runtime can have produced.
  ghost predicate WellFormed(v: Value) {
    match v.ty
    case Address => |v.bytes| == 20
    case Uint => exists n: nat :: n < U128 && v == PublicUint(n)
    case Void => v.bytes == []
    case FheBool | SecretBool => exists b :: v == EncodeBool(v.ty, b)
    case _ => exists n: nat :: n < U128 && v == EncodeUint(v.ty, n)
  }

  // Reading a number back gives the number that was written.
  lemma DecodeEncode(ty: ValueType, n: nat)
    requires n < U128
    ensures DecodeU128(EncodeUint(ty, n), Tag(ty)) == Ok(n)
    ensures PublicU128(PublicUint(n)) == Ok(n)
  {
    Width16();
    ReadBack(n, 16);
    var t := Tag(ty);
    assert (t + BigEndian(n, 16))[|t|..] == BigEndian(n, 16);
  }

  lemma DecodeEncodeBool(ty: ValueType, b: bool)
    ensures DecodeBool(EncodeBool(ty, b), Tag(ty)) == Ok(b)
  {
  }

  // Exactly the well-formed numbers decode.
  lemma DecodesWhenWellFormed(v: Value)
    requires IsNumber(v.ty)
    ensures DecodeU128(v, Tag(v.ty)).Ok? <==> WellFormed(v)
    ensures DecodeU128(v, Tag(v.ty)).Ok?
        ==> DecodeU128(v, Tag(v.ty)).value < U128 && v == EncodeUint(v.ty, DecodeU128(v, Tag(v.ty)).value)
  {
    var t := Tag(v.ty);
    hide Tag, BigEndian, FromBigEndian, DecodeU128;
    if DecodeU128(v, t).Ok? {
      DecodedBytes(v, t);
      var n: nat := DecodeU128(v, t).value;
      assert v == EncodeUint(v.ty, n);
      assert WellFormed(v);
    }
    if WellFormed(v) {
      var n: nat :| n < U128 && v == EncodeUint(v.ty, n);
      DecodeEncode(v.ty, n);
    }
  }

  lemma DecodedBytes(v: Value, t: seq<Byte>)
    requires DecodeU128(v, t).Ok?
    ensures DecodeU128(v, t).value < U128 && v.bytes == t + BigEndian(DecodeU128(v, t).value, 16)
  {
    Width16();
    WriteBack(v.bytes[|t|..]);
    assert v.bytes == t + v.bytes[|t|..];
  }

  // Number arithmetic of the backend on its own encodings.
  lemma ArithmeticMeaning(a: nat, b: nat)
    requires a < U128 && b < U128
    ensures EvaluatePlain(EvalFheAdd, [EncodeUint(FheUint, a), EncodeUint(FheUint, b)])
            == if a + b < U128 then Ok(EncodeUint(FheUint, a + b)) else Err(Overflow)
    ensures EvaluatePlain(EvalFheSub, [EncodeUint(FheUint, a), EncodeUint(FheUint, b)])
            == if a >= b then Ok(EncodeUint(FheUint, a - b)) else Err(Underflow)
    ensures EvaluatePlain(EvalFheGe, [EncodeUint(FheUint, a), EncodeUint(FheUint, b)])
        == Ok(EncodeBool(FheBool, a >= b))
    ensures EvaluatePlain(EvalMpcAdd, [EncodeUint(Sint, a), EncodeUint(Sint, b)])
            == if a + b < U128 then Ok(EncodeUint(Sint, a + b)) else Err(Overflow)
    ensures EvaluatePlain(EvalMpcSub, [EncodeUint(Sint, a), EncodeUint(Sint, b)])
            == if a >= b then Ok(EncodeUint(Sint, a - b)) else Err(Underflow)
    ensures EvaluatePlain(EvalMpcGe, [EncodeUint(Sint, a), EncodeUint(Sint, b)]) == Ok(EncodeBool(SecretBool, a >= b))
  {
    hide DecodeU128, EncodeUint, EncodeBool, Tag;
    DecodeEncode(FheUint, a);
    DecodeEncode(FheUint, b);
    DecodeEncode(Sint, a);
    DecodeEncode(Sint, b);
  }

  // Conversions and openings keep the number.
  lemma ConversionMeaning(a: nat, b: bool)
    requires a < U128
    ensures EvaluatePlain(EvalFheEncrypt, [PublicUint(a)]) == Ok(EncodeUint(FheUint, a))
    ensures EvaluatePlain(ConvertH2S, [EncodeUint(FheUint, a)]) == Ok(EncodeUint(Sint, a))
    ensures EvaluatePlain(ConvertH2S, [EncodeBool(FheBool, b)]) == Ok(EncodeBool(SecretBool, b))
    ensures EvaluatePlain(ConvertS2H, [EncodeUint(Sint, a)]) == Ok(EncodeUint(FheUint, a))
    ensures PickPlain(EncodeUint(Sint, a)) == Ok(EncodeUint(Opened, a))
    ensures PlainBackend().secretBool(EncodeBool(SecretBool, b)) == Ok(b)
  {
    hide DecodeU128, DecodeBool, PublicU128, PublicUint, Tag;
    DecodeEncode(FheUint, a);
    DecodeEncode(Sint, a);
    DecodeEncodeBool(FheBool, b);
    DecodeEncodeBool(SecretBool, b);
  }

  // ---- what the backend refuses ----

  predicate Tagged(ty: ValueType) { IsNumber(ty) || IsTruth(ty) }

  // The five tags, and that no bytes are the encoding of two types.
  lemma TagsApart(s: ValueType, t: ValueType, v: Value)
    requires Tagged(s) && Tagged(t) && s != t
    ensures Tag(FheUint) == Ascii("PPSC_MANIFEST_DEV_FHE_UINT_V1")
        && Tag(FheBool) == Ascii("PPSC_MANIFEST_DEV_FHE_BOOL_V1")
    ensures Tag(Sint) == Ascii("PPSC_MANIFEST_DEV_SS_UINT_V1")
        && Tag(SecretBool) == Ascii("PPSC_MANIFEST_DEV_SS_BOOL_V1")
    ensures Tag(Opened) == Ascii("PPSC_MANIFEST_DEV_OPENED_V1")
    ensures DecodeU128(v, Tag(s)).Ok? ==> DecodeU128(v, Tag(t)).Err? && DecodeBool(v, Tag(t)).Err?
    ensures DecodeBool(v, Tag(s)).Ok? ==> DecodeBool(v, Tag(t)).Err?
  {
    assert Tag(FheUint)[22] == 'U' as int && Tag(FheBool)[22] == 'B' as int;
    assert Tag(Sint)[21] == 'U' as int && Tag(SecretBool)[21] == 'B' as int;
  }

  // A number is read exactly from its tag and 16 bytes, a bit from its tag and one byte 0 or 1, a
  // public number from 16 bytes of a public value; everything else is an invalid value.
  lemma DecodeExactly(v: Value, tag: seq<Byte>, n: nat, b: bool)
    ensures DecodeU128(v, tag) == Ok(n) <==> n < U128 && v.bytes == tag + BigEndian(n, 16)
    ensures DecodeU128(v, tag).Err? ==> DecodeU128(v, tag).error == InvalidValue
    ensures DecodeBool(v, tag) == Ok(b) <==> v.bytes == tag + [if b then 1 else 0]
    ensures DecodeBool(v, tag).Err? ==> DecodeBool(v, tag).error == InvalidValue
    ensures PublicU128(v) == Ok(n) <==> n < U128 && v == PublicUint(n)
    ensures PublicU128(v).Err? ==> PublicU128(v).error == InvalidValue
  {
    hide FromBigEndian, BigEndian;
    Width16();
    if n < U128 {
      ReadBack(n, 16);
      assert (tag + BigEndian(n, 16))[|tag|..] == BigEndian(n, 16);
    }
    if DecodeU128(v, tag).Ok? {
      WriteBack(v.bytes[|tag|..]);
      assert v.bytes == tag + v.bytes[|tag|..];
    }
    if DecodeBool(v, tag).Ok? { assert v.bytes == tag + [v.bytes[|tag|]]; }
    if PublicU128(v).Ok? { WriteBack(v.bytes); }
  }

  // Two operands that encode a and b under the tag.
  ghost predicate Operands(args: seq<Value>, tag: seq<Byte>, a: nat, b: nat) {
    && |args| == 2 && a < U128 && b < U128
    && args[0].bytes == tag + BigEndian(a, 16) && args[1].bytes == tag + BigEndian(b, 16)
  }

  lemma OperandsExactly(args: seq<Value>, tag: seq<Byte>, a: nat, b: nat)
    ensures var r := TwoU128(args, tag);
      && (r == Ok((a, b)) <==> Operands(args, tag, a, b))
      && (r == Err(InvalidManifest) <==> |args| != 2)
      && (r.Err? && |args| == 2 ==> r.error == InvalidValue)
  {
    hide DecodeU128, BigEndian;
    if |args| == 2 {
      DecodeExactly(args[0], tag, a, false);
      DecodeExactly(args[1], tag, b, false);
    }
  }

  // The arithmetic of one domain on any operands.
  ghost predicate ArithmeticAnswers(opcode: Opcode, args: seq<Value>, a: nat, b: nat, tag: seq<Byte>,
      good: Result<Value, RuntimeError>)
  {
    var r := EvaluatePlain(opcode, args);
    && (Operands(args, tag, a, b) ==> r == good)
    && (|args| != 2 ==> r == Err(InvalidManifest))
    && (|args| == 2 && (DecodeU128(args[0], tag).Err? || DecodeU128(args[1], tag).Err?) ==> r == Err(InvalidValue))
  }

  lemma ArithmeticExactly(args: seq<Value>, a: nat, b: nat)
    ensures ArithmeticAnswers(EvalFheAdd, args, a, b, Tag(FheUint),
        if a + b < U128 then Ok(EncodeUint(FheUint, a + b)) else Err(Overflow))
    ensures ArithmeticAnswers(EvalFheSub, args, a, b, Tag(FheUint),
        if a >= b then Ok(EncodeUint(FheUint, a - b)) else Err(Underflow))
    ensures ArithmeticAnswers(EvalFheGe, args, a, b, Tag(FheUint), Ok(EncodeBool(FheBool, a >= b)))
    ensures ArithmeticAnswers(EvalMpcAdd, args, a, b, Tag(Sint),
        if a + b < U128 then Ok(EncodeUint(Sint, a + b)) else Err(Overflow))
    ensures ArithmeticAnswers(EvalMpcSub, args, a, b, Tag(Sint),
        if a >= b then Ok(EncodeUint(Sint, a - b)) else Err(Underflow))
    ensures ArithmeticAnswers(EvalMpcGe, args, a, b, Tag(Sint), Ok(EncodeBool(SecretBool, a >= b)))
  {
    hide DecodeU128, BigEndian, Tag, EncodeUint, EncodeBool;
    OperandsExactly(args, Tag(FheUint), a, b);
    OperandsExactly(args, Tag(Sint), a, b);
    TwoFails(args, Tag(FheUint));
    TwoFails(args, Tag(Sint));
  }

  lemma TwoFails(args: seq<Value>, tag: seq<Byte>)
    ensures |args| == 2 && (DecodeU128(args[0], tag).Err? || DecodeU128(args[1], tag).Err?) ==>
      TwoU128(args, tag) == Err(InvalidValue)
  {
    hide DecodeU128;
    if |args| == 2 {
      DecodeExactly(args[0], tag, 0, false);
      DecodeExactly(args[1], tag, 0, false);
    }
  }

  // Conversions and other operators on anything else.
  lemma ConversionsRefuse(args: seq<Value>, other: string)
    ensures |args| != 1 ==> forall o :: o == EvalFheEncrypt || o == ConvertH2S || o == ConvertS2H ==>
      EvaluatePlain(o, args) == Err(InvalidManifest)
    ensures |args| == 1 && args[0].ty != FheUint && args[0].ty != FheBool ==>
      EvaluatePlain(ConvertH2S, args) == Err(TypeMismatch)
    ensures |args| == 1 && PublicU128(args[0]).Err? ==> EvaluatePlain(EvalFheEncrypt, args) == Err(InvalidValue)
    ensures |args| == 1 && DecodeU128(args[0], Tag(Sint)).Err? ==> EvaluatePlain(ConvertS2H, args) == Err(InvalidValue)
    ensures forall o :: o in {LoadState, RequireSecret, OpeningPick, HostReceive, HostSend, OtherOpcode(other)} ==>
      EvaluatePlain(o, args) == Err(UnsupportedOperator)
  {
    hide Tag;
  }
}
