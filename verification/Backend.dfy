/** The plaintext reference backend for 128-bit amounts. */
module Backend {
  import opened Wrappers

  const U128: int := 0x1_0000_0000_0000_0000_0000_0000_0000_0000 // 2^128

  type Amount = n: int | 0 <= n < U128

  datatype BackendError = InvalidEncoding | InvalidCiphertext | Unauthorized | Overflow | InsufficientBalance

  function CheckedAdd(a: Amount, b: Amount): (r: Result<Amount, BackendError>) {
    if a + b < U128 then Ok(a + b) else Err(Overflow)
  }

  function CheckedSub(a: Amount, b: Amount): (r: Result<Amount, BackendError>) {
    if a >= b then Ok(a - b) else Err(InsufficientBalance)
  }

  // Moves `amount` when the sender holds strictly more than `minimum`.
  function ConditionalTransferStrictlyGreater(sender: Amount, receiver: Amount, minimum: Amount, amount: Amount)
    : (r: Result<(Amount, Amount), BackendError>)
  {
    if sender <= minimum then Ok((sender, receiver))
    else
      var nextSender :- CheckedSub(sender, amount);
      var nextReceiver :- CheckedAdd(receiver, amount);
      Ok((nextSender, nextReceiver))
  }
}
