/** Tokens, grammar and trees of contract clauses: src/contracts/ContractParser.h. */
module ContractSyntax {
  import opened Int64

  datatype CmpOp = EQ | NE | LT | LE | GT | GE

  /** Overflow is a number the tokenizer cannot represent: reaching it throws. */
  datatype Token =
    | Ident(text: string)
    | Int(value: int)
    | Overflow
    | LParen
    | RParen
    | Cmp(op: CmpOp)
    | AndAnd
    | OrOr
    | Bang
    | Bad(c: char)

  datatype Operand = Return | Param(name: string) | IntLit(value: int) | Null

  datatype Pred =
    | Compare(lhs: Operand, op: CmpOp, rhs: Operand)
    | And(children: seq<Pred>)
    | Or(children: seq<Pred>)
    | Not(sub: Pred)
    | Truth(operand: Operand)

  // --- The grammar, as its derivation trees ---

  datatype OrTree = OrOne(only: AndTree) | OrMore(first: AndTree, rest: OrTree)
  datatype AndTree = AndOne(only: UnaryTree) | AndMore(first: UnaryTree, rest: AndTree)
  datatype UnaryTree = NotTree(sub: UnaryTree) | AtomOf(atom: AtomTree)
  datatype AtomTree = Group(inner: OrTree) | Relation(lhs: Token, op: CmpOp, rhs: Token) | Bare(operand: Token)

  /** What an operand token stands for; `if` is reserved for guards. */
  function OperandOf(t: Token): Option<Operand> {
    match t
    case Int(v) => Some(IntLit(v))
    case Ident(text) =>
      if text == "return" then Some(Return)
      else if text == "null" then Some(Null)
      else if text == "if" then None
      else Some(Param(text))
    case _ => None
  }

  predicate OrOk(t: OrTree) {
    match t
    case OrOne(a) => AndOk(a)
    case OrMore(a, r) => AndOk(a) && OrOk(r)
  }

  predicate AndOk(t: AndTree) {
    match t
    case AndOne(u) => UnaryOk(u)
    case AndMore(u, r) => UnaryOk(u) && AndOk(r)
  }

  predicate UnaryOk(t: UnaryTree) {
    match t
    case NotTree(s) => UnaryOk(s)
    case AtomOf(Group(p)) => OrOk(p)
    case AtomOf(Relation(l, _, r)) => OperandOf(l).Some? && OperandOf(r).Some?
    case AtomOf(Bare(o)) => OperandOf(o).Some?
  }

  /** The tokens a derivation tree derives. */
  function OrYield(t: OrTree): seq<Token> {
    match t
    case OrOne(a) => AndYield(a)
    case OrMore(a, r) => AndYield(a) + [OrOr] + OrYield(r)
  }

  function AndYield(t: AndTree): seq<Token> {
    match t
    case AndOne(u) => UnaryYield(u)
    case AndMore(u, r) => UnaryYield(u) + [AndAnd] + AndYield(r)
  }

  function UnaryYield(t: UnaryTree): seq<Token> {
    match t
    case NotTree(s) => [Bang] + UnaryYield(s)
    case AtomOf(Group(p)) => [LParen] + OrYield(p) + [RParen]
    case AtomOf(Relation(l, op, r)) => [l, Cmp(op), r]
    case AtomOf(Bare(o)) => [o]
  }

  /** The predicate a derivation tree means: `!` over `&&` over `||`, chains flattened. */
  function OrMeaning(t: OrTree): Pred
    requires OrOk(t)
    decreases t, 1
  {
    if t.OrOne? then AndMeaning(t.only) else Or(OrOperands(t))
  }

  function OrOperands(t: OrTree): seq<Pred>
    requires OrOk(t)
    decreases t, 0
  {
    match t
    case OrOne(a) => [AndMeaning(a)]
    case OrMore(a, r) => [AndMeaning(a)] + OrOperands(r)
  }

  function AndMeaning(t: AndTree): Pred
    requires AndOk(t)
    decreases t, 1
  {
    if t.AndOne? then UnaryMeaning(t.only) else And(AndOperands(t))
  }

  function AndOperands(t: AndTree): seq<Pred>
    requires AndOk(t)
    decreases t, 0
  {
    match t
    case AndOne(u) => [UnaryMeaning(u)]
    case AndMore(u, r) => [UnaryMeaning(u)] + AndOperands(r)
  }

  function UnaryMeaning(t: UnaryTree): Pred
    requires UnaryOk(t)
    decreases t, 0
  {
    match t
    case NotTree(s) => Not(UnaryMeaning(s))
    case AtomOf(Group(p)) => OrMeaning(p)
    case AtomOf(Relation(l, op, r)) => Compare(OperandOf(l).value, op, OperandOf(r).value)
    case AtomOf(Bare(o)) => Truth(OperandOf(o).value)
  }

  // --- Clauses ---

  datatype Clause =
    | Requires(pred: Pred)
    | Ensures(pred: Pred, guard: Option<Pred>)
    | Owns(name: string)
    | Borrows(name: string)
    | ReturnsOwned
    | Policy(name: string)

  datatype ClauseTree =
    | RequiresTree(pred: OrTree)
    | EnsuresTree(pred: OrTree)
    | GuardedTree(pred: OrTree, guard: OrTree)
    | OwnsTree(name: string)
    | BorrowsTree(name: string)
    | ReturnsTree

  predicate ClauseOk(t: ClauseTree) {
    match t
    case RequiresTree(p) => OrOk(p)
    case EnsuresTree(p) => OrOk(p)
    case GuardedTree(p, g) => OrOk(p) && OrOk(g)
    case _ => true
  }

  function ClauseYield(t: ClauseTree): seq<Token> {
    match t
    case RequiresTree(p) => [Ident("requires")] + OrYield(p)
    case EnsuresTree(p) => [Ident("ensures")] + OrYield(p)
    case GuardedTree(p, g) => [Ident("ensures")] + OrYield(p) + [Ident("if")] + OrYield(g)
    case OwnsTree(n) => [Ident("owns"), LParen, Ident(n), RParen]
    case BorrowsTree(n) => [Ident("borrows"), LParen, Ident(n), RParen]
    case ReturnsTree => [Ident("returns"), Ident("owned")]
  }

  function ClauseMeaning(t: ClauseTree): Clause
    requires ClauseOk(t)
  {
    match t
    case RequiresTree(p) => Requires(OrMeaning(p))
    case EnsuresTree(p) => Ensures(OrMeaning(p), None)
    case GuardedTree(p, g) => Ensures(OrMeaning(p), Some(OrMeaning(g)))
    case OwnsTree(n) => Owns(n)
    case BorrowsTree(n) => Borrows(n)
    case ReturnsTree => ReturnsOwned
  }
}
