/** The backend-neutral operator list emitted by the compiler and run by the executor. */
module Manifests {
  import opened Wrappers
  import opened Language

  // What an operator reads: a literal, an invocation input, the caller, or an earlier operator.
  datatype Ref = Const(digits: string) | Input(name: string) | Sender | Op(index: nat)

  datatype Opcode =
    | LoadState
    | RequireSecret
    | OpeningPick
    | HostReceive
    | HostSend
    | EvalFheEncrypt | EvalFheAdd | EvalFheSub | EvalFheGe
    | EvalMpcAdd | EvalMpcSub | EvalMpcGe
    | ConvertH2S | ConvertS2H
    | OtherOpcode(text: string)

  function OpcodeText(o: Opcode): (s: string) {
    match o
    case LoadState => "load_state"
    case RequireSecret => "require_secret"
    case OpeningPick => "opening.pick"
    case HostReceive => "host.receive_encrypted_token"
    case HostSend => "host.send_encrypted_token"
    case EvalFheEncrypt => "fhe.encrypt"
    case EvalFheAdd => "fhe.add"
    case EvalFheSub => "fhe.sub"
    case EvalFheGe => "fhe.ge"
    case EvalMpcAdd => "mpc.add"
    case EvalMpcSub => "mpc.sub"
    case EvalMpcGe => "mpc.ge"
    case ConvertH2S => "convert.h2s"
    case ConvertS2H => "convert.s2h"
    case OtherOpcode(text) => text
  }

  datatype OperatorNode = OperatorNode(
    id: Ref,
    opcode: Opcode,
    domain: Representation,
    inputs: seq<Ref>,
    outputType: ValueType,
    state: Option<string>)

  datatype WriteNode = WriteNode(state: string, key: Option<Ref>, value: Ref)

  datatype FunctionManifest = FunctionManifest(
    name: string,
    inputs: seq<Param>,
    operators: seq<OperatorNode>,
    writes: seq<WriteNode>,
    opening: Option<Ref>)

  datatype ContractManifest = ContractManifest(
    contract: string,
    state: seq<StateDecl>,
    functions: seq<FunctionManifest>)

  // ---- references as the manifest spells them ----

  function DigitChar(d: nat): (c: char)
    requires d < 10
  {
    ('0' as int + d) as char
  }

  function Decimal(n: nat): (s: string)
    ensures |s| > 0
  {
    if n < 10 then [DigitChar(n)] else Decimal(n / 10) + [DigitChar(n % 10)]
  }

  function Render(r: Ref): (s: string) {
    match r
    case Const(d) => "const:" + d
    case Input(n) => "input:" + n
    case Sender => "context:msg.sender"
    case Op(i) => "op" + Decimal(i)
  }

  lemma {:induction false} DecimalInjective(m: nat, n: nat)
    requires Decimal(m) == Decimal(n)
    ensures m == n
  {
    var a, b := Decimal(m), Decimal(n);
    assert a[|a| - 1] == DigitChar(m % 10) && b[|b| - 1] == DigitChar(n % 10);
    if m >= 10 && n >= 10 {
      assert a[..|a| - 1] == Decimal(m / 10) && b[..|b| - 1] == Decimal(n / 10);
      DecimalInjective(m / 10, n / 10);
    }
  }

  // Different references are spelled differently, so a table keyed by spellings is a table keyed
  // by references, and exactly the literals carry the literal prefix.
  lemma RenderInjective(r: Ref, s: Ref)
    ensures Render(r) == Render(s) <==> r == s
    ensures "const:" <= Render(r) <==> r.Const?
  {
    RenderHead(r);
    RenderHead(s);
    if Render(r) == Render(s) {
      match r
      case Const(d) => assert Render(r)[6..] == d && Render(s)[6..] == s.digits;
      case Input(n) => assert Render(r)[6..] == n && Render(s)[6..] == s.name;
      case Sender =>
      case Op(i) =>
        assert Render(r)[2..] == Decimal(i) && Render(s)[2..] == Decimal(s.index);
        DecimalInjective(i, s.index);
    }
  }

  lemma RenderHead(r: Ref)
    ensures |Render(r)| >= 3
    ensures Render(r)[0] == (match r case Const(_) => 'c' case Input(_) => 'i' case Sender => 'c' case Op(_) => 'o')
    ensures r.Const? ==> Render(r)[2] == 'n' && "const:" <= Render(r)
    ensures r.Sender? ==> Render(r)[2] == 'n' && Render(r)[3] == 't'
    ensures "const:" <= Render(r) ==> Render(r)[0] == 'c' && Render(r)[3] == 's'
  {
  }
}
