/** The contract language: types, representations and the syntax tree. */
module Language {
  import opened Wrappers

  datatype ValueType = Address | Uint | FheUint | FheBool | Sint | SecretBool | Opened | Void {
    function Representation(): (r: Representation) {
      match this
      case FheUint | FheBool => Fhe
      case Sint | SecretBool => SecretSharing
      case _ => Public
    }
  }

  datatype Representation = Public | Fhe | SecretSharing

  datatype Program = Program(name: string, states: seq<StateDecl>, functions: seq<Function>)

  datatype StateDecl = StateDecl(name: string, ty: ValueType, keyTy: Option<ValueType>)

  datatype Function = Function(name: string, params: seq<Param>, body: seq<Statement>)

  datatype Param = Param(name: string, ty: ValueType)

  datatype Statement =
    | Local(ty: ValueType, name: string, value: Expression)
    | Assign(target: Expression, value: Expression)
    | Require(condition: Expression)
    | Return(value: Expression)
    | ExprStatement(value: Expression)

  datatype Expression =
    | Name(name: string)
    | Number(digits: string)
    | Index(state: string, key: Expression)
    | Call(operation: string, args: seq<Expression>)

  // The first declaration of a state.
  function FindState(states: seq<StateDecl>, name: string): (r: Option<StateDecl>)
    ensures r.Some? ==> r.value in states && r.value.name == name
    ensures r.None? ==> forall i :: 0 <= i < |states| ==> states[i].name != name
  {
    if states == [] then None
    else if states[0].name == name then Some(states[0])
    else FindState(states[1..], name)
  }

  // The operations a source program can call, by their source names.
  datatype Builtin =
    | FheEncrypt | FheAdd | FheSub | FheGe
    | MpcAdd | MpcSub | MpcGe
    | H2S | S2H | Pick
    | ReceiveEncryptedToken | SendEncryptedToken

  function BuiltinNamed(name: string): (r: Option<Builtin>) {
    if name == "FHE.encrypt" then Some(FheEncrypt)
    else if name == "FHE.add" then Some(FheAdd)
    else if name == "FHE.sub" then Some(FheSub)
    else if name == "FHE.ge" then Some(FheGe)
    else if name == "MPC.add" then Some(MpcAdd)
    else if name == "MPC.sub" then Some(MpcSub)
    else if name == "MPC.ge" then Some(MpcGe)
    else if name == "H2S" then Some(H2S)
    else if name == "S2H" then Some(S2H)
    else if name == "Pick" then Some(Pick)
    else if name == "receiveEncryptedToken" then Some(ReceiveEncryptedToken)
    else if name == "sendEncryptedToken" then Some(SendEncryptedToken)
    else None
  }
}
