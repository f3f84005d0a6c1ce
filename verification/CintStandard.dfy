/** The parser against the expression syntax of ISO C11, section 6.5, with the operator tokens
    written out production by production: which operators bind tighter, which way they group,
    and which tree each token makes. */
module CintStandard {
  import opened Basics
  import opened CintExpr
  import opened CintParser
  import opened CintRoundTrip

  /** The operators of the productions of sections 6.5.5 to 6.5.14, from multiplicative to logical
      OR expressions, and the tree operators they stand for. */
  predicate Listed(n: nat, t: Token, op: BinaryOp) {
    match n
    case 0 => (t == Star && op == Mul) || (t == Slash && op == Div) || (t == Percent && op == Mod)
    case 1 => (t == Plus && op == Add) || (t == Minus && op == Sub)
    case 2 => (t == LShift && op == Shl) || (t == RShift && op == Shr)
    case 3 => (t == Less && op == Lt) || (t == Greater && op == Gt) || (t == LessEq && op == Le) || (t == GreaterEq && op == Ge)
    case 4 => (t == EqEq && op == Eq) || (t == NotEq && op == Ne)
    case 5 => t == Amp && op == BitAnd
    case 6 => t == Caret && op == BitXor
    case 7 => t == Bar && op == BitOr
    case 8 => t == AmpAmp && op == And
    case 9 => t == BarBar && op == Or
    case _ => false
  }

  predicate IsPrefix(t: Token, op: PrefixOp) {
    || (t == Minus && op == Neg) || (t == Bang && op == Not) || (t == Tilde && op == BitNot)
    || (t == PlusPlus && op == PreInc) || (t == MinusMinus && op == PreDec)
    || (t == Star && op == Deref) || (t == Amp && op == AddressOf)
  }

  predicate IsPostfix(t: Token, op: PostfixOp) {
    (t == PlusPlus && op == PostInc) || (t == MinusMinus && op == PostDec)
  }

  predicate IsAssignment(t: Token, op: AssignOp) {
    || (t == Assign && op == Set) || (t == PlusEq && op == AddSet) || (t == MinusEq && op == SubSet)
    || (t == StarEq && op == MulSet) || (t == SlashEq && op == DivSet)
  }

  /** `ts` begins with an expression whose tree is `e`, written out, and `rest` follows. */
  ghost predicate AnyAt(e: Expr, ts: Tokens, rest: Tokens) { exists c :: Spells(c, e, ts, rest) }

  /** The same for an expression that can be the operand of a binary operator, and of a postfix one. */
  ghost predicate UnaryAt(e: Expr, ts: Tokens, rest: Tokens) {
    exists c :: Spells(c, e, ts, rest) && !c.Binary? && !c.Ternary? && !c.Assignment?
  }

  ghost predicate PostfixAt(e: Expr, ts: Tokens, rest: Tokens) {
    exists c :: Spells(c, e, ts, rest) && !c.Binary? && !c.Ternary? && !c.Assignment? && !c.Prefix?
  }

  ghost predicate Spells(c: Expr, e: Expr, ts: Tokens, rest: Tokens) { Derivation(c) && ts == Spell(c, rest) && Strip(c) == e }

  /** A token an expression can be followed by. */
  predicate Ends(t: Token) { t.Other? || t in {RParen, RBracket, Comma, Colon, Eof} }

  /** The tokens from `ts` up to `rest` are parsed as `e`, without error. */
  predicate ParsedAs(ts: Tokens, e: Expr, rest: Tokens) { Assigned(ts, true) == State(e, rest, true) }

  // ---------------------------------------------------------------------------
  // From written pieces to a derivation
  // ---------------------------------------------------------------------------

  lemma EndsStops(t: Token)
    requires Ends(t)
    ensures Stops(14, t)
  {
  }

  lemma ListedIs(n: nat, t: Token, op: BinaryOp)
    requires Listed(n, t, op)
    ensures BinaryToken(op) == t && OpLevel(op) == n + 3 <= 12
  {
    if n < 4 { ListedIsOne(n, t, op); }
  }

  lemma ListedIsOne(n: nat, t: Token, op: BinaryOp)
    requires n < 4 && Listed(n, t, op)
    ensures BinaryToken(op) == t && OpLevel(op) == n + 3
  {
  }

  /** Some derivation of level `k` at most, with tree `e`, is written between `ts` and `rest`. */
  ghost predicate At(k: nat, e: Expr, ts: Tokens, rest: Tokens) { exists c :: Spells(c, e, ts, rest) && Level(c) <= k }

  lemma AtHigher(k: nat, m: nat, e: Expr, ts: Tokens, rest: Tokens)
    requires At(k, e, ts, rest) && k <= m
    ensures At(m, e, ts, rest)
  {
    var c :| Spells(c, e, ts, rest) && Level(c) <= k;
    assert Spells(c, e, ts, rest) && Level(c) <= m;
  }

  lemma AnyIs(e: Expr, ts: Tokens, rest: Tokens)
    requires AnyAt(e, ts, rest)
    ensures At(14, e, ts, rest)
  {
    var c :| Spells(c, e, ts, rest);
    assert Level(c) <= 14;
  }

  lemma UnaryIs(e: Expr, ts: Tokens, rest: Tokens, k: nat)
    requires UnaryAt(e, ts, rest) && k >= 2
    ensures At(k, e, ts, rest)
  {
    var c :| Spells(c, e, ts, rest) && !c.Binary? && !c.Ternary? && !c.Assignment?;
    assert Level(c) <= k;
  }

  lemma PostfixExprIs(e: Expr, ts: Tokens, rest: Tokens)
    requires PostfixAt(e, ts, rest)
    ensures At(1, e, ts, rest)
  {
    var c :| Spells(c, e, ts, rest) && !c.Binary? && !c.Ternary? && !c.Assignment? && !c.Prefix?;
    assert Level(c) <= 1;
  }

  lemma Parses(k: nat, e: Expr, ts: Tokens, rest: Tokens)
    requires At(k, e, ts, rest) && Ends(Head(rest))
    ensures ParsedAs(ts, e, rest)
  {
    var c :| Spells(c, e, ts, rest) && Level(c) <= k;
    EndsStops(Head(rest));
    ReadsAssignment(c, rest);
  }

  lemma BinaryAtLevel(n: nat, t: Token, p: BinaryOp, l: Expr, ts: Tokens, r: Expr, us: Tokens, rest: Tokens)
    requires Listed(n, t, p) && At(n + 3, l, ts, More(t, us)) && At(n + 2, r, us, rest)
    ensures n < 10 && At(n + 3, Binary(p, l, r), ts, rest)
  {
    ListedIs(n, t, p);
    var c :| Spells(c, l, ts, More(t, us)) && Level(c) <= n + 3;
    var d :| Spells(d, r, us, rest) && Level(d) <= n + 2;
    BinarySpells(t, p, c, l, ts, d, r, us, rest);
  }

  lemma BinarySpells(t: Token, p: BinaryOp, c: Expr, l: Expr, ts: Tokens, d: Expr, r: Expr, us: Tokens, rest: Tokens)
    requires BinaryToken(p) == t && Spells(c, l, ts, More(t, us)) && Spells(d, r, us, rest)
    requires Level(c) <= OpLevel(p) && Level(d) < OpLevel(p)
    ensures Spells(Binary(p, c, d), Binary(p, l, r), ts, rest) && Level(Binary(p, c, d)) == OpLevel(p)
  {
  }

  lemma ParenAt(e: Expr, ts: Tokens, rest: Tokens, k: nat)
    requires AnyAt(e, ts, More(RParen, rest))
    ensures At(k, e, More(LParen, ts), rest)
  {
    var c :| Spells(c, e, ts, More(RParen, rest));
    assert Spells(Paren(c), e, More(LParen, ts), rest) && Level(Paren(c)) <= k;
  }

  lemma PrefixAt(u: Token, q: PrefixOp, e: Expr, ts: Tokens, rest: Tokens, k: nat)
    requires IsPrefix(u, q) && At(2, e, ts, rest) && k >= 2
    ensures At(k, Prefix(q, e), More(u, ts), rest)
  {
    var c :| Spells(c, e, ts, rest) && Level(c) <= 2;
    assert Spells(Prefix(q, c), Prefix(q, e), More(u, ts), rest) && Level(Prefix(q, c)) <= k;
  }

  lemma AssignmentAt(t: Token, p: AssignOp, l: Expr, ts: Tokens, r: Expr, us: Tokens, rest: Tokens)
    requires IsAssignment(t, p) && At(13, l, ts, More(t, us)) && At(14, r, us, rest)
    ensures At(14, Assignment(p, l, r), ts, rest)
  {
    var c :| Spells(c, l, ts, More(t, us)) && Level(c) <= 13;
    var d :| Spells(d, r, us, rest) && Level(d) <= 14;
    AssignmentSpells(t, p, c, l, ts, d, r, us, rest);
  }

  lemma AssignmentSpells(t: Token, p: AssignOp, c: Expr, l: Expr, ts: Tokens, d: Expr, r: Expr, us: Tokens, rest: Tokens)
    requires IsAssignment(t, p) && Spells(c, l, ts, More(t, us)) && Spells(d, r, us, rest) && Level(c) <= 13
    ensures Spells(Assignment(p, c, d), Assignment(p, l, r), ts, rest) && Level(Assignment(p, c, d)) == 14
  {
  }

  lemma ConditionalAt(b: Expr, ts: Tokens, x: Expr, us: Tokens, e: Expr, vs: Tokens, rest: Tokens)
    requires At(12, b, ts, More(Question, us)) && AnyAt(x, us, More(Colon, vs)) && At(13, e, vs, rest)
    ensures At(13, Ternary(b, x, e), ts, rest)
  {
    var c :| Spells(c, b, ts, More(Question, us)) && Level(c) <= 12;
    var y :| Spells(y, x, us, More(Colon, vs));
    var d :| Spells(d, e, vs, rest) && Level(d) <= 13;
    assert Spells(Ternary(c, y, d), Ternary(b, x, e), ts, rest) && Level(Ternary(c, y, d)) <= 13;
  }

  // ---------------------------------------------------------------------------
  // Binary operators: `ts` is `a`, an operator, `b`, an operator, `c`
  // ---------------------------------------------------------------------------

  /** An operator of an earlier production binds tighter than one of a later, on its right side. */
  lemma TighterOnTheRight(n: nat, lo: Token, l: BinaryOp, m: nat, hi: Token, h: BinaryOp,
                          a: Expr, ts: Tokens, b: Expr, us: Tokens, c: Expr, vs: Tokens, rest: Tokens)
    requires Listed(n, lo, l) && Listed(m, hi, h) && m < n && Ends(Head(rest))
    requires UnaryAt(a, ts, More(lo, us)) && UnaryAt(b, us, More(hi, vs)) && UnaryAt(c, vs, rest)
    ensures ParsedAs(ts, Binary(l, a, Binary(h, b, c)), rest)
  {
    UnaryIs(a, ts, More(lo, us), n + 3);
    UnaryIs(b, us, More(hi, vs), m + 3);
    UnaryIs(c, vs, rest, m + 2);
    BinaryAtLevel(m, hi, h, b, us, c, vs, rest);
    AtHigher(m + 3, n + 2, Binary(h, b, c), us, rest);
    BinaryAtLevel(n, lo, l, a, ts, Binary(h, b, c), us, rest);
    Parses(n + 3, Binary(l, a, Binary(h, b, c)), ts, rest);
  }

  /** And on its left side; operators of one production group from left to right. */
  lemma GroupsToTheLeft(m: nat, t: Token, p: BinaryOp, n: nat, u: Token, q: BinaryOp,
                        a: Expr, ts: Tokens, b: Expr, us: Tokens, c: Expr, vs: Tokens, rest: Tokens)
    requires Listed(m, t, p) && Listed(n, u, q) && m <= n && Ends(Head(rest))
    requires UnaryAt(a, ts, More(t, us)) && UnaryAt(b, us, More(u, vs)) && UnaryAt(c, vs, rest)
    ensures ParsedAs(ts, Binary(q, Binary(p, a, b), c), rest)
  {
    UnaryIs(a, ts, More(t, us), m + 3);
    UnaryIs(b, us, More(u, vs), m + 2);
    UnaryIs(c, vs, rest, n + 2);
    BinaryAtLevel(m, t, p, a, ts, b, us, More(u, vs));
    AtHigher(m + 3, n + 3, Binary(p, a, b), ts, More(u, vs));
    BinaryAtLevel(n, u, q, Binary(p, a, b), ts, c, vs, rest);
    Parses(n + 3, Binary(q, Binary(p, a, b), c), ts, rest);
  }

  /** Parentheses make an operand of anything, on either side of any operator. */
  lemma ParenthesesGroup(n: nat, t: Token, p: BinaryOp, a: Expr, ts: Tokens, b: Expr, us: Tokens, rest: Tokens)
    requires Listed(n, t, p) && Ends(Head(rest))
    requires AnyAt(a, ts, More(RParen, More(t, More(LParen, us)))) && AnyAt(b, us, More(RParen, rest))
    ensures ParsedAs(More(LParen, ts), Binary(p, a, b), rest)
  {
    ParenAt(a, ts, More(t, More(LParen, us)), n + 3);
    ParenAt(b, us, rest, n + 2);
    BinaryAtLevel(n, t, p, a, More(LParen, ts), b, More(LParen, us), rest);
    Parses(n + 3, Binary(p, a, b), More(LParen, ts), rest);
  }

  // ---------------------------------------------------------------------------
  // Prefix and postfix operators
  // ---------------------------------------------------------------------------

  /** A prefix operator binds tighter than any binary one that follows its operand. */
  lemma PrefixOnTheLeft(n: nat, t: Token, p: BinaryOp, u: Token, q: PrefixOp, a: Expr, ts: Tokens, b: Expr, us: Tokens, rest: Tokens)
    requires Listed(n, t, p) && IsPrefix(u, q) && UnaryAt(a, ts, More(t, us)) && UnaryAt(b, us, rest) && Ends(Head(rest))
    ensures ParsedAs(More(u, ts), Binary(p, Prefix(q, a), b), rest)
  {
    UnaryIs(a, ts, More(t, us), 2);
    UnaryIs(b, us, rest, n + 2);
    PrefixAt(u, q, a, ts, More(t, us), n + 3);
    BinaryAtLevel(n, t, p, Prefix(q, a), More(u, ts), b, us, rest);
    Parses(n + 3, Binary(p, Prefix(q, a), b), More(u, ts), rest);
  }

  /** And one that comes before. */
  lemma PrefixOnTheRight(n: nat, t: Token, p: BinaryOp, u: Token, q: PrefixOp, a: Expr, ts: Tokens, b: Expr, us: Tokens, rest: Tokens)
    requires Listed(n, t, p) && IsPrefix(u, q) && UnaryAt(a, ts, More(t, More(u, us))) && UnaryAt(b, us, rest) && Ends(Head(rest))
    ensures ParsedAs(ts, Binary(p, a, Prefix(q, b)), rest)
  {
    UnaryIs(a, ts, More(t, More(u, us)), n + 3);
    UnaryIs(b, us, rest, 2);
    PrefixAt(u, q, b, us, rest, n + 2);
    BinaryAtLevel(n, t, p, a, ts, Prefix(q, b), More(u, us), rest);
    Parses(n + 3, Binary(p, a, Prefix(q, b)), ts, rest);
  }

  lemma PrefixComesLast(u: Token, q: PrefixOp, e: Expr, ts: Tokens, rest: Tokens)
    requires IsPrefix(u, q) && At(1, e, ts, rest) && Ends(Head(rest))
    ensures ParsedAs(More(u, ts), Prefix(q, e), rest)
  {
    AtHigher(1, 2, e, ts, rest);
    PrefixAt(u, q, e, ts, rest, 2);
    Parses(2, Prefix(q, e), More(u, ts), rest);
  }

  /** Postfix operators bind tighter than prefix ones, and so do member access, indexing and calls. */
  lemma PostfixBindsTighter(u: Token, q: PrefixOp, t: Token, p: PostfixOp, a: Expr, ts: Tokens, rest: Tokens)
    requires IsPrefix(u, q) && IsPostfix(t, p) && PostfixAt(a, ts, More(t, rest)) && Ends(Head(rest))
    ensures ParsedAs(More(u, ts), Prefix(q, Postfix(p, a)), rest)
  {
    PostfixExprIs(a, ts, More(t, rest));
    var c :| Spells(c, a, ts, More(t, rest)) && Level(c) <= 1;
    assert Spells(Postfix(p, c), Postfix(p, a), ts, rest) && Level(Postfix(p, c)) <= 1;
    PrefixComesLast(u, q, Postfix(p, a), ts, rest);
  }

  lemma MemberBindsTighter(u: Token, q: PrefixOp, t: Token, arrow: bool, name: string, a: Expr, ts: Tokens, rest: Tokens)
    requires IsPrefix(u, q) && ((t == Dot && !arrow) || (t == Arrow && arrow))
    requires PostfixAt(a, ts, More(t, More(Ident(name), rest))) && Ends(Head(rest))
    ensures ParsedAs(More(u, ts), Prefix(q, Member(a, arrow, name)), rest)
  {
    PostfixExprIs(a, ts, More(t, More(Ident(name), rest)));
    var c :| Spells(c, a, ts, More(t, More(Ident(name), rest))) && Level(c) <= 1;
    assert Spells(Member(c, arrow, name), Member(a, arrow, name), ts, rest) && Level(Member(c, arrow, name)) <= 1;
    PrefixComesLast(u, q, Member(a, arrow, name), ts, rest);
  }

  lemma IndexBindsTighter(u: Token, q: PrefixOp, a: Expr, ts: Tokens, x: Expr, us: Tokens, rest: Tokens)
    requires IsPrefix(u, q) && PostfixAt(a, ts, More(LBracket, us)) && AnyAt(x, us, More(RBracket, rest)) && Ends(Head(rest))
    ensures ParsedAs(More(u, ts), Prefix(q, Index(a, x)), rest)
  {
    PostfixExprIs(a, ts, More(LBracket, us));
    var c :| Spells(c, a, ts, More(LBracket, us)) && Level(c) <= 1;
    var d :| Spells(d, x, us, More(RBracket, rest));
    IndexSpells(c, a, ts, d, x, us, rest);
    PrefixComesLast(u, q, Index(a, x), ts, rest);
  }

  lemma IndexSpells(c: Expr, a: Expr, ts: Tokens, d: Expr, x: Expr, us: Tokens, rest: Tokens)
    requires Spells(c, a, ts, More(LBracket, us)) && Level(c) <= 1 && Spells(d, x, us, More(RBracket, rest))
    ensures Spells(Index(c, d), Index(a, x), ts, rest) && Level(Index(c, d)) == 1
  {
  }

  /** A call with two arguments, which are any expressions. */
  lemma CallBindsTighter(u: Token, q: PrefixOp, a: Expr, ts: Tokens, x: Expr, us: Tokens, y: Expr, vs: Tokens, rest: Tokens)
    requires IsPrefix(u, q) && PostfixAt(a, ts, More(LParen, us)) && Ends(Head(rest))
    requires AnyAt(x, us, More(Comma, vs)) && AnyAt(y, vs, More(RParen, rest))
    ensures ParsedAs(More(u, ts), Prefix(q, Call(a, [x, y])), rest)
  {
    PostfixExprIs(a, ts, More(LParen, us));
    var c :| Spells(c, a, ts, More(LParen, us)) && Level(c) <= 1;
    var d :| Spells(d, x, us, More(Comma, vs));
    var e :| Spells(e, y, vs, More(RParen, rest));
    CallSpells(c, a, ts, d, x, us, e, y, vs, rest);
    PrefixComesLast(u, q, Call(a, [x, y]), ts, rest);
  }

  lemma CallSpells(c: Expr, a: Expr, ts: Tokens, d: Expr, x: Expr, us: Tokens, e: Expr, y: Expr, vs: Tokens, rest: Tokens)
    requires Spells(c, a, ts, More(LParen, us)) && Level(c) <= 1 && Spells(d, x, us, More(Comma, vs)) && Spells(e, y, vs, More(RParen, rest))
    ensures Spells(Call(c, [d, e]), Call(a, [x, y]), ts, rest) && Level(Call(c, [d, e])) == 1
  {
    TwoArguments(d, e, More(RParen, rest));
  }

  lemma TwoArguments(x: Expr, y: Expr, rest: Tokens)
    ensures SpellArgs([x, y], rest) == Spell(x, More(Comma, Spell(y, rest)))
    ensures StripAll([x, y]) == [Strip(x), Strip(y)]
  {
    var args := [x, y];
    assert args[1..] == [y] && [y][1..] == [];
    assert StripAll([y]) == [Strip(y)] + StripAll([]);
  }

  // ---------------------------------------------------------------------------
  // Conditional and assignment operators
  // ---------------------------------------------------------------------------

  /** Assignments group from right to left. */
  lemma AssignmentsGroupToTheRight(t: Token, p: AssignOp, u: Token, q: AssignOp,
                                   a: Expr, ts: Tokens, b: Expr, us: Tokens, c: Expr, vs: Tokens, rest: Tokens)
    requires IsAssignment(t, p) && IsAssignment(u, q) && Ends(Head(rest))
    requires UnaryAt(a, ts, More(t, us)) && UnaryAt(b, us, More(u, vs)) && UnaryAt(c, vs, rest)
    ensures ParsedAs(ts, Assignment(p, a, Assignment(q, b, c)), rest)
  {
    UnaryIs(a, ts, More(t, us), 13);
    UnaryIs(b, us, More(u, vs), 13);
    UnaryIs(c, vs, rest, 14);
    AssignmentAt(u, q, b, us, c, vs, rest);
    AssignmentAt(t, p, a, ts, Assignment(q, b, c), us, rest);
    Parses(14, Assignment(p, a, Assignment(q, b, c)), ts, rest);
  }

  /** Any binary operator binds tighter than assignment. */
  lemma AssignmentComesLast(u: Token, q: AssignOp, n: nat, t: Token, p: BinaryOp,
                            a: Expr, ts: Tokens, b: Expr, us: Tokens, c: Expr, vs: Tokens, rest: Tokens)
    requires Listed(n, t, p) && IsAssignment(u, q) && Ends(Head(rest))
    requires UnaryAt(a, ts, More(u, us)) && UnaryAt(b, us, More(t, vs)) && UnaryAt(c, vs, rest)
    ensures ParsedAs(ts, Assignment(q, a, Binary(p, b, c)), rest)
  {
    UnaryIs(a, ts, More(u, us), 13);
    UnaryIs(b, us, More(t, vs), n + 3);
    UnaryIs(c, vs, rest, n + 2);
    BinaryAtLevel(n, t, p, b, us, c, vs, rest);
    AtHigher(n + 3, 14, Binary(p, b, c), us, rest);
    AssignmentAt(u, q, a, ts, Binary(p, b, c), us, rest);
    Parses(14, Assignment(q, a, Binary(p, b, c)), ts, rest);
  }

  /** Any binary operator binds tighter than the conditional; between question mark and colon
      stands any expression. */
  lemma ConditionalComesLater(n: nat, t: Token, p: BinaryOp, a: Expr, ts: Tokens, b: Expr, us: Tokens,
                              x: Expr, vs: Tokens, e: Expr, ws: Tokens, rest: Tokens)
    requires Listed(n, t, p) && Ends(Head(rest))
    requires UnaryAt(a, ts, More(t, us)) && UnaryAt(b, us, More(Question, vs)) && AnyAt(x, vs, More(Colon, ws)) && UnaryAt(e, ws, rest)
    ensures ParsedAs(ts, Ternary(Binary(p, a, b), x, e), rest)
  {
    UnaryIs(a, ts, More(t, us), n + 3);
    UnaryIs(b, us, More(Question, vs), n + 2);
    UnaryIs(e, ws, rest, 13);
    BinaryAtLevel(n, t, p, a, ts, b, us, More(Question, vs));
    AtHigher(n + 3, 12, Binary(p, a, b), ts, More(Question, vs));
    ConditionalAt(Binary(p, a, b), ts, x, vs, e, ws, rest);
    Parses(13, Ternary(Binary(p, a, b), x, e), ts, rest);
  }

  /** Conditionals group from right to left. */
  lemma ConditionalsGroupToTheRight(a: Expr, ts: Tokens, x: Expr, us: Tokens, c: Expr, vs: Tokens,
                                    y: Expr, ws: Tokens, e: Expr, zs: Tokens, rest: Tokens)
    requires UnaryAt(a, ts, More(Question, us)) && AnyAt(x, us, More(Colon, vs)) && Ends(Head(rest))
    requires UnaryAt(c, vs, More(Question, ws)) && AnyAt(y, ws, More(Colon, zs)) && UnaryAt(e, zs, rest)
    ensures ParsedAs(ts, Ternary(a, x, Ternary(c, y, e)), rest)
  {
    UnaryIs(a, ts, More(Question, us), 12);
    UnaryIs(c, vs, More(Question, ws), 12);
    UnaryIs(e, zs, rest, 13);
    ConditionalAt(c, vs, y, ws, e, zs, rest);
    ConditionalAt(a, ts, x, us, Ternary(c, y, e), vs, rest);
    Parses(13, Ternary(a, x, Ternary(c, y, e)), ts, rest);
  }

  /** The conditional binds tighter than assignment. */
  lemma AssignsConditional(u: Token, q: AssignOp, a: Expr, ts: Tokens, c: Expr, us: Tokens, y: Expr, vs: Tokens, e: Expr, ws: Tokens, rest: Tokens)
    requires IsAssignment(u, q) && UnaryAt(a, ts, More(u, us)) && Ends(Head(rest))
    requires UnaryAt(c, us, More(Question, vs)) && AnyAt(y, vs, More(Colon, ws)) && UnaryAt(e, ws, rest)
    ensures ParsedAs(ts, Assignment(q, a, Ternary(c, y, e)), rest)
  {
    UnaryIs(a, ts, More(u, us), 13);
    UnaryIs(c, us, More(Question, vs), 12);
    UnaryIs(e, ws, rest, 13);
    ConditionalAt(c, us, y, vs, e, ws, rest);
    AtHigher(13, 14, Ternary(c, y, e), us, rest);
    AssignmentAt(u, q, a, ts, Ternary(c, y, e), us, rest);
    Parses(14, Assignment(q, a, Ternary(c, y, e)), ts, rest);
  }
}
