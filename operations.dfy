/** The four operations of the compute protocol and the names they go by on the wire. */
module Operations {
  import opened Wrappers

  datatype Op = ADD | SUB | MUL | DIV

  /** The token that names `op` on the wire (and keys its per-operation counter). */
  function OpName(op: Op): string {
    match op
    case ADD => "ADD"
    case SUB => "SUB"
    case MUL => "MUL"
    case DIV => "DIV"
  }

  /** The `switch (operation)`: an exact, case-sensitive match of the token. */
  function ParseOp(name: string): (r: Option<Op>)
    ensures r.Some? ==> OpName(r.value) == name
    ensures r.None? ==> forall op: Op :: OpName(op) != name
  {
    if name == "ADD" then Some(ADD)
    else if name == "SUB" then Some(SUB)
    else if name == "MUL" then Some(MUL)
    else if name == "DIV" then Some(DIV)
    else None
  }

  lemma ParseOpName(op: Op)
    ensures ParseOp(OpName(op)) == Some(op)
  {
  }
}
