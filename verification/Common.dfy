/** Declarations that several of the modules use. */
module Common {

  datatype Option<T> = None | Some(value: T)

  /** A message of a conversation with the model. */
  datatype Role = User | Assistant
  datatype Message = Message(role: Role, content: string)

  function Min(a: nat, b: nat): nat { if a <= b then a else b }

  function Max(a: int, b: int): int { if a < b then b else a }

  function Pow2(n: nat): (r: nat)
    ensures 0 < r
  {
    if n == 0 then 1 else 2 * Pow2(n - 1)
  }
}
