/** The expressions of the CINT interpreter's C subset: tokens, syntax trees, and the
    grammar as a relation between trees and token strings. */
module CintExpr {
  import opened Basics

  datatype Value = IntValue(i: int) | FloatValue(f: real) | CharValue(c: char) | StringValue(s: string)

  /** `Other` stands for the tokens no expression function looks at (semicolon, braces, keywords). */
  datatype Token =
    | Literal(v: Value) | Ident(name: string)
    | LParen | RParen | LBracket | RBracket | Dot | Arrow | Comma | Question | Colon
    | Plus | Minus | Star | Slash | Percent | PlusPlus | MinusMinus | Bang | Tilde
    | LShift | RShift | Less | Greater | LessEq | GreaterEq | EqEq | NotEq
    | Amp | Caret | Bar | AmpAmp | BarBar
    | Assign | PlusEq | MinusEq | StarEq | SlashEq
    | Other(kind: nat) | Eof

  /** The rest of a token string. */
  datatype Tokens = End | More(head: Token, tail: Tokens)

  /** The current token; past the end the lexer keeps giving the end-of-file token. */
  function Head(ts: Tokens): Token {
    match ts case End => Eof case More(t, _) => t
  }

  function Size(ts: Tokens): nat {
    match ts case End => 0 case More(_, rest) => 1 + Size(rest)
  }

  datatype PrefixOp = Neg | Not | BitNot | PreInc | PreDec | Deref | AddressOf

  datatype PostfixOp = PostInc | PostDec

  datatype BinaryOp =
    | Mul | Div | Mod | Add | Sub | Shl | Shr | Lt | Gt | Le | Ge | Eq | Ne
    | BitAnd | BitXor | BitOr | And | Or

  datatype AssignOp = Set | AddSet | SubSet | MulSet | DivSet

  /** Syntax trees. `Missing` is the null pointer an erroneous parse leaves behind. `Paren`
      records parentheses of the source text; the interpreter's own trees have none. */
  datatype Expr =
    | Missing
    | Paren(inner: Expr)
    | Const(v: Value)
    | Var(name: string)
    | Call(callee: Expr, args: seq<Expr>)
    | Index(base: Expr, index: Expr)
    | Member(owner: Expr, arrow: bool, field: string)
    | Postfix(post: PostfixOp, operand: Expr)
    | Prefix(pre: PrefixOp, operand: Expr)
    | Binary(op: BinaryOp, left: Expr, right: Expr)
    | Ternary(cond: Expr, whenTrue: Expr, whenFalse: Expr)
    | Assignment(how: AssignOp, target: Expr, value: Expr)

  const MaxArgs := 64

  // ---------------------------------------------------------------------------
  // Operators and their levels; a lower level binds tighter
  // ---------------------------------------------------------------------------

  function PrefixToken(op: PrefixOp): Token {
    match op
    case Neg => Minus case Not => Bang case BitNot => Tilde
    case PreInc => PlusPlus case PreDec => MinusMinus
    case Deref => Star case AddressOf => Amp
  }

  function PrefixOf(t: Token): Option<PrefixOp> {
    match t
    case Minus => Some(Neg) case Bang => Some(Not) case Tilde => Some(BitNot)
    case PlusPlus => Some(PreInc) case MinusMinus => Some(PreDec)
    case Star => Some(Deref) case Amp => Some(AddressOf)
    case _ => None
  }

  function PostfixToken(op: PostfixOp): Token {
    match op case PostInc => PlusPlus case PostDec => MinusMinus
  }

  function BinaryToken(op: BinaryOp): Token {
    match op
    case Mul => Star case Div => Slash case Mod => Percent
    case Add => Plus case Sub => Minus
    case Shl => LShift case Shr => RShift
    case Lt => Less case Gt => Greater case Le => LessEq case Ge => GreaterEq
    case Eq => EqEq case Ne => NotEq
    case BitAnd => Amp case BitXor => Caret case BitOr => Bar
    case And => AmpAmp case Or => BarBar
  }

  function BinaryOf(t: Token): Option<BinaryOp> {
    match t
    case Star => Some(Mul) case Slash => Some(Div) case Percent => Some(Mod)
    case Plus => Some(Add) case Minus => Some(Sub)
    case LShift => Some(Shl) case RShift => Some(Shr)
    case Less => Some(Lt) case Greater => Some(Gt) case LessEq => Some(Le) case GreaterEq => Some(Ge)
    case EqEq => Some(Eq) case NotEq => Some(Ne)
    case Amp => Some(BitAnd) case Caret => Some(BitXor) case Bar => Some(BitOr)
    case AmpAmp => Some(And) case BarBar => Some(Or)
    case _ => None
  }

  function AssignToken(op: AssignOp): Token {
    match op
    case Set => Assign case AddSet => PlusEq case SubSet => MinusEq case MulSet => StarEq case DivSet => SlashEq
  }

  function AssignOf(t: Token): Option<AssignOp> {
    match t
    case Assign => Some(Set) case PlusEq => Some(AddSet) case MinusEq => Some(SubSet)
    case StarEq => Some(MulSet) case SlashEq => Some(DivSet)
    case _ => None
  }

  function OpLevel(op: BinaryOp): (k: nat)
    ensures 3 <= k <= 12
  {
    match op
    case Mul => 3 case Div => 3 case Mod => 3
    case Add => 4 case Sub => 4
    case Shl => 5 case Shr => 5
    case Lt => 6 case Gt => 6 case Le => 6 case Ge => 6
    case Eq => 7 case Ne => 7
    case BitAnd => 8 case BitXor => 9 case BitOr => 10
    case And => 11 case Or => 12
  }

  /** 0 primary, 1 postfix, 2 unary, 3 to 12 binary, 13 conditional, 14 assignment. */
  function Level(c: Expr): nat {
    match c
    case Missing => 0 case Paren(_) => 0 case Const(_) => 0 case Var(_) => 0
    case Call(_, _) => 1 case Index(_, _) => 1 case Member(_, _, _) => 1 case Postfix(_, _) => 1
    case Prefix(_, _) => 2
    case Binary(op, _, _) => OpLevel(op)
    case Ternary(_, _, _) => 13
    case Assignment(_, _, _) => 14
  }

  // ---------------------------------------------------------------------------
  // The grammar
  // ---------------------------------------------------------------------------

  /** The tree is a derivation of the grammar: every operand is of a level its place admits. */
  ghost predicate Derivation(c: Expr) {
    match c
    case Missing => false
    case Paren(e) => Derivation(e)
    case Const(_) => true
    case Var(_) => true
    case Call(f, args) => Derivation(f) && Level(f) <= 1 && |args| <= MaxArgs && forall a :: a in args ==> Derivation(a)
    case Index(b, i) => Derivation(b) && Level(b) <= 1 && Derivation(i)
    case Member(o, _, _) => Derivation(o) && Level(o) <= 1
    case Postfix(_, e) => Derivation(e) && Level(e) <= 1
    case Prefix(_, e) => Derivation(e) && Level(e) <= 2
    case Binary(op, l, r) => Derivation(l) && Derivation(r) && Level(l) <= OpLevel(op) && Level(r) < OpLevel(op)
    case Ternary(b, t, e) => Derivation(b) && Derivation(t) && Derivation(e) && Level(b) <= 12 && Level(e) <= 13
    case Assignment(_, l, r) => Derivation(l) && Derivation(r) && Level(l) <= 13
  }

  /** The tokens of a derivation, followed by `rest`. */
  function Spell(c: Expr, rest: Tokens): Tokens
    decreases c
  {
    match c
    case Missing => rest
    case Paren(e) => More(LParen, Spell(e, More(RParen, rest)))
    case Const(v) => More(Literal(v), rest)
    case Var(s) => More(Ident(s), rest)
    case Call(f, args) => Spell(f, More(LParen, SpellArgs(args, More(RParen, rest))))
    case Index(b, i) => Spell(b, More(LBracket, Spell(i, More(RBracket, rest))))
    case Member(o, arrow, s) => Spell(o, More(if arrow then Arrow else Dot, More(Ident(s), rest)))
    case Postfix(op, e) => Spell(e, More(PostfixToken(op), rest))
    case Prefix(op, e) => More(PrefixToken(op), Spell(e, rest))
    case Binary(op, l, r) => Spell(l, More(BinaryToken(op), Spell(r, rest)))
    case Ternary(b, t, e) => Spell(b, More(Question, Spell(t, More(Colon, Spell(e, rest)))))
    case Assignment(op, l, r) => Spell(l, More(AssignToken(op), Spell(r, rest)))
  }

  function SpellArgs(args: seq<Expr>, rest: Tokens): Tokens
    decreases args
  {
    if args == [] then rest
    else if |args| == 1 then Spell(args[0], rest)
    else Spell(args[0], More(Comma, SpellArgs(args[1..], rest)))
  }

  /** The tree without its parentheses. */
  function Strip(c: Expr): (e: Expr)
    decreases c
  {
    match c
    case Missing => c
    case Paren(e) => Strip(e)
    case Const(_) => c
    case Var(_) => c
    case Call(f, args) => Call(Strip(f), StripAll(args))
    case Index(b, i) => Index(Strip(b), Strip(i))
    case Member(o, arrow, s) => Member(Strip(o), arrow, s)
    case Postfix(op, e) => Postfix(op, Strip(e))
    case Prefix(op, e) => Prefix(op, Strip(e))
    case Binary(op, l, r) => Binary(op, Strip(l), Strip(r))
    case Ternary(b, t, e) => Ternary(Strip(b), Strip(t), Strip(e))
    case Assignment(op, l, r) => Assignment(op, Strip(l), Strip(r))
  }

  function StripAll(args: seq<Expr>): (es: seq<Expr>)
    ensures |es| == |args|
    decreases args
  {
    if args == [] then [] else [Strip(args[0])] + StripAll(args[1..])
  }

  // ---------------------------------------------------------------------------
  // The minimally parenthesised print
  // ---------------------------------------------------------------------------

  /** A tree of the interpreter: nothing missing, no parentheses, calls the argument array can hold. */
  ghost predicate Plain(e: Expr) {
    match e
    case Missing => false
    case Paren(_) => false
    case Const(_) => true
    case Var(_) => true
    case Call(f, args) => Plain(f) && |args| <= MaxArgs && forall a :: a in args ==> Plain(a)
    case Index(b, i) => Plain(b) && Plain(i)
    case Member(o, _, _) => Plain(o)
    case Postfix(_, x) => Plain(x)
    case Prefix(_, x) => Plain(x)
    case Binary(_, l, r) => Plain(l) && Plain(r)
    case Ternary(b, t, x) => Plain(b) && Plain(t) && Plain(x)
    case Assignment(_, l, r) => Plain(l) && Plain(r)
  }

  /** The tree with parentheses exactly where a place would not admit the operand's level. */
  function Minimal(e: Expr, k: nat): Expr
    decreases e, 1
  {
    if Level(e) <= k then Inside(e) else Paren(Inside(e))
  }

  function Inside(e: Expr): Expr
    decreases e, 0
  {
    match e
    case Missing => e
    case Paren(_) => e
    case Const(_) => e
    case Var(_) => e
    case Call(f, args) => Call(Minimal(f, 1), MinimalAll(args))
    case Index(b, i) => Index(Minimal(b, 1), Minimal(i, 14))
    case Member(o, arrow, s) => Member(Minimal(o, 1), arrow, s)
    case Postfix(op, x) => Postfix(op, Minimal(x, 1))
    case Prefix(op, x) => Prefix(op, Minimal(x, 2))
    case Binary(op, l, r) => Binary(op, Minimal(l, OpLevel(op)), Minimal(r, OpLevel(op) - 1))
    case Ternary(b, t, x) => Ternary(Minimal(b, 12), Minimal(t, 14), Minimal(x, 13))
    case Assignment(op, l, r) => Assignment(op, Minimal(l, 13), Minimal(r, 14))
  }

  function MinimalAll(args: seq<Expr>): seq<Expr>
    decreases args, 0
  {
    if args == [] then [] else [Minimal(args[0], 14)] + MinimalAll(args[1..])
  }

  /** The minimal form is a derivation of the tree it was made from. */
  lemma {:induction false} MinimalDerives(e: Expr, k: nat)
    requires Plain(e)
    ensures Derivation(Minimal(e, k)) && Level(Minimal(e, k)) <= k && Strip(Minimal(e, k)) == e
    decreases e, 1
  {
    InsideDerives(e);
  }

  lemma {:induction false} InsideDerives(e: Expr)
    requires Plain(e)
    ensures Derivation(Inside(e)) && Level(Inside(e)) == Level(e) && Strip(Inside(e)) == e
    decreases e, 0
  {
    match e
    case Const(_) =>
    case Var(_) =>
    case Call(f, args) => MinimalDerives(f, 1); MinimalAllDerive(args);
    case Index(b, i) => MinimalDerives(b, 1); MinimalDerives(i, 14);
    case Member(o, _, _) => MinimalDerives(o, 1);
    case Postfix(_, x) => MinimalDerives(x, 1);
    case Prefix(_, x) => MinimalDerives(x, 2);
    case Binary(op, l, r) => MinimalDerives(l, OpLevel(op)); MinimalDerives(r, OpLevel(op) - 1);
    case Ternary(b, t, x) => MinimalDerives(b, 12); MinimalDerives(t, 14); MinimalDerives(x, 13);
    case Assignment(_, l, r) => MinimalDerives(l, 13); MinimalDerives(r, 14);
  }

  lemma {:induction false} MinimalAllDerive(args: seq<Expr>)
    requires forall a :: a in args ==> Plain(a)
    ensures |MinimalAll(args)| == |args| && StripAll(MinimalAll(args)) == args
    ensures forall a :: a in MinimalAll(args) ==> Derivation(a)
    decreases args, 0
  {
    if args != [] {
      MinimalDerives(args[0], 14);
      MinimalAllDerive(args[1..]);
      assert MinimalAll(args)[1..] == MinimalAll(args[1..]);
    }
  }

  // ---------------------------------------------------------------------------
  // No derivation is shorter
  // ---------------------------------------------------------------------------

  /** The number of tokens of a derivation. */
  function Count(c: Expr): nat
    decreases c
  {
    match c
    case Missing => 0
    case Paren(e) => Count(e) + 2
    case Const(_) => 1
    case Var(_) => 1
    case Call(f, args) => Count(f) + CountArgs(args) + 2
    case Index(b, i) => Count(b) + Count(i) + 2
    case Member(o, _, _) => Count(o) + 2
    case Postfix(_, e) => Count(e) + 1
    case Prefix(_, e) => Count(e) + 1
    case Binary(_, l, r) => Count(l) + Count(r) + 1
    case Ternary(b, t, e) => Count(b) + Count(t) + Count(e) + 2
    case Assignment(_, l, r) => Count(l) + Count(r) + 1
  }

  function CountArgs(args: seq<Expr>): nat
    decreases args
  {
    if args == [] then 0 else if |args| == 1 then Count(args[0]) else Count(args[0]) + 1 + CountArgs(args[1..])
  }

  lemma {:induction false} SpellSize(c: Expr, rest: Tokens)
    ensures Size(Spell(c, rest)) == Count(c) + Size(rest)
    decreases c
  {
    match c
    case Missing =>
    case Paren(e) => SpellSize(e, More(RParen, rest));
    case Const(_) =>
    case Var(_) =>
    case Call(f, args) =>
      SpellSize(f, More(LParen, SpellArgs(args, More(RParen, rest))));
      SpellArgsSize(args, More(RParen, rest));
    case Index(b, i) =>
      SpellSize(b, More(LBracket, Spell(i, More(RBracket, rest))));
      SpellSize(i, More(RBracket, rest));
    case Member(o, arrow, s) => SpellSize(o, More(if arrow then Arrow else Dot, More(Ident(s), rest)));
    case Postfix(op, e) => SpellSize(e, More(PostfixToken(op), rest));
    case Prefix(_, e) => SpellSize(e, rest);
    case Binary(op, l, r) =>
      SpellSize(l, More(BinaryToken(op), Spell(r, rest)));
      SpellSize(r, rest);
    case Ternary(b, t, e) =>
      SpellSize(b, More(Question, Spell(t, More(Colon, Spell(e, rest)))));
      SpellSize(t, More(Colon, Spell(e, rest)));
      SpellSize(e, rest);
    case Assignment(op, l, r) =>
      SpellSize(l, More(AssignToken(op), Spell(r, rest)));
      SpellSize(r, rest);
  }

  lemma {:induction false} SpellArgsSize(args: seq<Expr>, rest: Tokens)
    ensures Size(SpellArgs(args, rest)) == CountArgs(args) + Size(rest)
    decreases args
  {
    if |args| == 1 {
      SpellSize(args[0], rest);
    } else if args != [] {
      SpellSize(args[0], More(Comma, SpellArgs(args[1..], rest)));
      SpellArgsSize(args[1..], rest);
    }
  }

  /** No derivation of the same tree for the same place has fewer tokens. */
  lemma {:induction false} MinimalIsShortest(c: Expr, k: nat)
    requires Derivation(c) && Level(c) <= k
    ensures Plain(Strip(c))
    ensures Count(Minimal(Strip(c), k)) <= Count(c)
    decreases c, 2
  {
    if c.Paren? {
      MinimalIsShortest(c.inner, 14);
    } else {
      InsideIsShortest(c);
    }
  }

  lemma {:induction false} InsideIsShortest(c: Expr)
    requires Derivation(c) && !c.Paren?
    ensures Plain(Strip(c)) && Level(Strip(c)) == Level(c)
    ensures Count(Inside(Strip(c))) <= Count(c)
    decreases c, 1
  {
    if Level(c) == 1 {
      PostfixIsShortest(c);
    } else {
      OperatorIsShortest(c);
    }
  }

  lemma {:induction false} PostfixIsShortest(c: Expr)
    requires Derivation(c) && Level(c) == 1
    ensures Plain(Strip(c)) && Level(Strip(c)) == 1
    ensures Count(Inside(Strip(c))) <= Count(c)
    decreases c, 0
  {
    match c
    case Call(_, _) => CallIsShortest(c);
    case Index(b, i) => MinimalIsShortest(b, 1); MinimalIsShortest(i, 14);
    case Member(o, _, _) => MinimalIsShortest(o, 1);
    case Postfix(_, x) => MinimalIsShortest(x, 1);
  }

  lemma {:induction false} CallIsShortest(c: Expr)
    requires Derivation(c) && c.Call?
    ensures Plain(Strip(c))
    ensures Count(Inside(Strip(c))) <= Count(c)
    decreases c, -1
  {
    MinimalIsShortest(c.callee, 1);
    AllShortest(c.args);
  }

  lemma {:induction false} OperatorIsShortest(c: Expr)
    requires Derivation(c) && !c.Paren? && Level(c) != 1
    ensures Plain(Strip(c)) && Level(Strip(c)) == Level(c)
    ensures Count(Inside(Strip(c))) <= Count(c)
    decreases c, 0
  {
    match c
    case Const(_) =>
    case Var(_) =>
    case Prefix(_, x) => MinimalIsShortest(x, 2);
    case Binary(_, _, _) => BinaryIsShortest(c);
    case Ternary(_, _, _) => TernaryIsShortest(c);
    case Assignment(_, l, r) => MinimalIsShortest(l, 13); MinimalIsShortest(r, 14);
  }

  lemma {:induction false} BinaryIsShortest(c: Expr)
    requires Derivation(c) && c.Binary?
    ensures Plain(Strip(c))
    ensures Count(Inside(Strip(c))) <= Count(c)
    decreases c, -1
  {
    MinimalIsShortest(c.left, OpLevel(c.op));
    MinimalIsShortest(c.right, OpLevel(c.op) - 1);
  }

  lemma {:induction false} TernaryIsShortest(c: Expr)
    requires Derivation(c) && c.Ternary?
    ensures Plain(Strip(c))
    ensures Count(Inside(Strip(c))) <= Count(c)
    decreases c, -1
  {
    MinimalIsShortest(c.cond, 12);
    MinimalIsShortest(c.whenTrue, 14);
    MinimalIsShortest(c.whenFalse, 13);
  }

  lemma {:induction false} AllShortest(args: seq<Expr>)
    requires forall a :: a in args ==> Derivation(a)
    ensures |StripAll(args)| == |args| && forall a :: a in StripAll(args) ==> Plain(a)
    ensures CountArgs(MinimalAll(StripAll(args))) <= CountArgs(args)
    decreases args, 0
  {
    if args != [] {
      MinimalIsShortest(args[0], 14);
      AllShortest(args[1..]);
      var s := StripAll(args);
      assert s[0] == Strip(args[0]) && s[1..] == StripAll(args[1..]);
      assert MinimalAll(s)[1..] == MinimalAll(s[1..]);
    }
  }

  /** The minimal print is a shortest token string for its tree. */
  lemma {:induction false} PrintIsShortest(c: Expr, rest: Tokens)
    requires Derivation(c)
    ensures Size(Spell(Minimal(Strip(c), 14), rest)) <= Size(Spell(c, rest))
  {
    MinimalIsShortest(c, 14);
    SpellSize(c, rest);
    SpellSize(Minimal(Strip(c), 14), rest);
  }
}
