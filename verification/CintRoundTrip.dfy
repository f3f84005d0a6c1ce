/** The parser against the grammar: it reads every derivation as the tree it stands for,
    and whatever it accepts is a derivation. */
module CintRoundTrip {
  import opened Basics
  import opened CintExpr
  import opened CintParser

  /** A token that the loops and tests of the levels up to `k` do not take. */
  predicate Stops(k: nat, t: Token) {
    && (k >= 1 ==> t !in {LParen, LBracket, Dot, Arrow, PlusPlus, MinusMinus})
    && (BinaryOf(t).Some? ==> OpLevel(BinaryOf(t).value) > k)
    && (k >= 13 ==> t != Question)
    && (k >= 14 ==> AssignOf(t).None?)
  }

  // ---------------------------------------------------------------------------
  // Every derivation is read as its tree
  // ---------------------------------------------------------------------------

  lemma {:induction false} NeverMissing(c: Expr)
    requires Derivation(c)
    ensures !Strip(c).Missing?
  {
    if c.Paren? { NeverMissing(c.inner); }
  }

  /** A postfix derivation does not begin with a prefix operator. */
  lemma {:induction false} StartsPostfix(c: Expr, rest: Tokens)
    requires Derivation(c) && Level(c) <= 1
    ensures PrefixOf(Head(Spell(c, rest))).None?
  {
    match c
    case Call(f, args) => StartsPostfix(f, More(LParen, SpellArgs(args, More(RParen, rest))));
    case Index(b, i) => StartsPostfix(b, More(LBracket, Spell(i, More(RBracket, rest))));
    case Member(o, arrow, s) => StartsPostfix(o, More(if arrow then Arrow else Dot, More(Ident(s), rest)));
    case Postfix(op, e) => StartsPostfix(e, More(PostfixToken(op), rest));
    case _ =>
  }

  /** No derivation begins with a closing parenthesis. */
  lemma {:induction false} StartsDerivation(c: Expr, rest: Tokens)
    requires Derivation(c)
    ensures Head(Spell(c, rest)) != RParen
  {
    match c
    case Call(f, args) => StartsDerivation(f, More(LParen, SpellArgs(args, More(RParen, rest))));
    case Index(b, i) => StartsDerivation(b, More(LBracket, Spell(i, More(RBracket, rest))));
    case Member(o, arrow, s) => StartsDerivation(o, More(if arrow then Arrow else Dot, More(Ident(s), rest)));
    case Postfix(op, e) => StartsDerivation(e, More(PostfixToken(op), rest));
    case Binary(op, l, r) => StartsDerivation(l, More(BinaryToken(op), Spell(r, rest)));
    case Ternary(b, t, e) => StartsDerivation(b, More(Question, Spell(t, More(Colon, Spell(e, rest)))));
    case Assignment(op, l, r) => StartsDerivation(l, More(AssignToken(op), Spell(r, rest)));
    case _ =>
  }

  lemma {:induction false} ReadsPrimary(c: Expr, rest: Tokens)
    requires Derivation(c) && Level(c) == 0
    ensures Primary(Spell(c, rest), true) == State(Strip(c), rest, true)
    decreases c, 0, 0
  {
    if c.Paren? { ReadsAssignment(c.inner, More(RParen, rest)); }
  }

  /** After a postfix derivation the suffix loop goes on with it as its operand. */
  lemma {:induction false} ReachesSuffixes(c: Expr, rest: Tokens)
    requires Derivation(c) && Level(c) <= 1
    ensures Suffixed(Spell(c, rest), true) == Suffixes(State(Strip(c), rest, true))
    decreases c, 1, 0
  {
    if Level(c) == 0 {
      NeverMissing(c);
      ReadsPrimary(c, rest);
    } else {
      match c
      case Call(f, args) =>
        ReachesSuffixes(f, More(LParen, SpellArgs(args, More(RParen, rest))));
        ReadsArguments(args, More(RParen, rest));
        CallStep(Strip(f), args, rest);
      case Index(b, i) =>
        ReachesSuffixes(b, More(LBracket, Spell(i, More(RBracket, rest))));
        ReadsAssignment(i, More(RBracket, rest));
        IndexStep(Strip(b), i, rest);
      case Member(o, arrow, s) =>
        ReachesSuffixes(o, More(if arrow then Arrow else Dot, More(Ident(s), rest)));
        MemberStep(Strip(o), arrow, s, rest);
      case Postfix(op, e) =>
        ReachesSuffixes(e, More(PostfixToken(op), rest));
        PostfixStep(Strip(e), op, rest);
    }
  }

  lemma {:induction false} CallStep(f: Expr, args: seq<Expr>, rest: Tokens)
    requires Arguments(SpellArgs(args, More(RParen, rest)), true) == ArgsState(StripAll(args), More(RParen, rest), true)
    ensures Suffix(State(f, More(LParen, SpellArgs(args, More(RParen, rest))), true))
            == Some(State(Call(f, StripAll(args)), rest, true))
  {
  }

  lemma {:induction false} IndexStep(b: Expr, i: Expr, rest: Tokens)
    requires Assigned(Spell(i, More(RBracket, rest)), true) == State(Strip(i), More(RBracket, rest), true)
    ensures Suffix(State(b, More(LBracket, Spell(i, More(RBracket, rest))), true))
            == Some(State(Index(b, Strip(i)), rest, true))
  {
  }

  lemma {:induction false} MemberStep(o: Expr, arrow: bool, s: string, rest: Tokens)
    ensures Suffix(State(o, More(if arrow then Arrow else Dot, More(Ident(s), rest)), true))
            == Some(State(Member(o, arrow, s), rest, true))
  {
  }

  lemma {:induction false} PostfixStep(e: Expr, op: PostfixOp, rest: Tokens)
    ensures Suffix(State(e, More(PostfixToken(op), rest), true)) == Some(State(Postfix(op, e), rest, true))
  {
  }

  lemma {:induction false} ReadsArguments(args: seq<Expr>, rest: Tokens)
    requires |args| <= MaxArgs && (forall a :: a in args ==> Derivation(a)) && Head(rest) == RParen
    ensures Arguments(SpellArgs(args, rest), true) == ArgsState(StripAll(args), rest, true)
    decreases args, 0, 1
  {
    if args != [] {
      StartsDerivation(args[0], if |args| == 1 then rest else More(Comma, SpellArgs(args[1..], rest)));
      ReadsMoreArguments([], args, rest);
      assert [] + StripAll(args) == StripAll(args);
    }
  }

  lemma {:induction false} ReadsMoreArguments(done: seq<Expr>, args: seq<Expr>, rest: Tokens)
    requires args != [] && |done| + |args| <= MaxArgs && (forall a :: a in args ==> Derivation(a)) && Head(rest) == RParen
    ensures MoreArguments(done, SpellArgs(args, rest), true) == ArgsState(done + StripAll(args), rest, true)
    decreases args, 0, 0
  {
    var first, others := args[0], args[1..];
    StripFirst(done, args);
    if |args| == 1 {
      ReadsAssignment(first, rest);
    } else {
      ReadsAssignment(first, More(Comma, SpellArgs(others, rest)));
      ReadsMoreArguments(done + [Strip(first)], others, rest);
    }
  }

  lemma {:induction false} StripFirst(done: seq<Expr>, args: seq<Expr>)
    requires args != []
    ensures done + StripAll(args) == done + [Strip(args[0])] + StripAll(args[1..])
    ensures |args| == 1 ==> done + StripAll(args) == done + [Strip(args[0])]
  {
    var s := StripAll(args[1..]);
    assert StripAll(args) == [Strip(args[0])] + s;
    AppendFirst(done, Strip(args[0]), s);
  }

  lemma {:induction false} AppendFirst(a: seq<Expr>, x: Expr, b: seq<Expr>)
    ensures a + ([x] + b) == a + [x] + b
  {
  }

  lemma {:induction false} ReadsUnary(c: Expr, rest: Tokens)
    requires Derivation(c) && Level(c) <= 2 && Stops(2, Head(rest))
    ensures Unary(Spell(c, rest), true) == State(Strip(c), rest, true)
    decreases c, 2, 0
  {
    if c.Prefix? {
      ReadsUnary(c.operand, rest);
      PrefixStep(Spell(c.operand, rest), c.pre);
    } else {
      StartsPostfix(c, rest);
      ReachesSuffixes(c, rest);
      NoSuffix(State(Strip(c), rest, true));
      NoPrefixStep(Spell(c, rest));
    }
  }

  lemma {:induction false} PrefixStep(ts: Tokens, op: PrefixOp)
    ensures var s := Unary(ts, true);
            Unary(More(PrefixToken(op), ts), true) == State(Prefix(op, s.e), s.rest, s.ok)
  {
    assert PrefixOf(PrefixToken(op)) == Some(op);
  }

  lemma {:induction false} NoPrefixStep(ts: Tokens)
    requires PrefixOf(Head(ts)).None?
    ensures Unary(ts, true) == Suffixed(ts, true)
  {
  }

  lemma {:induction false} NoSuffix(s: State)
    requires Stops(1, Head(s.rest))
    ensures Suffixes(s) == s
  {
  }

  lemma {:induction false} ReadsOperand(k: nat, c: Expr, rest: Tokens)
    requires 3 <= k <= 12 && Derivation(c) && Level(c) < k && Stops(k - 1, Head(rest))
    ensures Operand(k, Spell(c, rest), true) == State(Strip(c), rest, true)
    decreases c, k - 1, 2
  {
    if k == 3 { ReadsUnary(c, rest); } else { ReadsBinary(k - 1, c, rest); }
  }

  /** After a derivation of a binary level, the loop of the level goes on with it as its left operand. */
  lemma {:induction false} ReachesChain(k: nat, c: Expr, rest: Tokens)
    requires 3 <= k <= 12 && Derivation(c) && Level(c) <= k && Stops(k - 1, Head(rest))
    ensures BinaryLevel(k, Spell(c, rest), true) == Chain(k, State(Strip(c), rest, true))
    decreases c, k, 0
  {
    if Level(c) < k {
      ReadsOperand(k, c, rest);
    } else {
      TokenOf(c.op);
      ReachesChain(k, c.left, More(BinaryToken(c.op), Spell(c.right, rest)));
      ReadsOperand(k, c.right, rest);
      ChainStep(State(Strip(c.left), More(BinaryToken(c.op), Spell(c.right, rest)), true), c.op);
    }
  }

  lemma {:induction false} ChainStep(s: State, op: BinaryOp)
    requires Head(s.rest) == BinaryToken(op)
    ensures var r := Operand(OpLevel(op), s.rest.tail, s.ok);
            Chain(OpLevel(op), s) == Chain(OpLevel(op), State(Binary(op, s.e, r.e), r.rest, r.ok))
  {
    TokenOf(op);
  }

  lemma {:induction false} TokenOf(op: BinaryOp)
    ensures BinaryAt(OpLevel(op), BinaryToken(op)) == Some(op)
    ensures Stops(OpLevel(op) - 1, BinaryToken(op))
  {
  }

  lemma {:induction false} ReadsBinary(k: nat, c: Expr, rest: Tokens)
    requires 3 <= k <= 12 && Derivation(c) && Level(c) <= k && Stops(k, Head(rest))
    ensures BinaryLevel(k, Spell(c, rest), true) == State(Strip(c), rest, true)
    decreases c, k, 1
  {
    ReachesChain(k, c, rest);
  }

  lemma {:induction false} ReadsConditional(c: Expr, rest: Tokens)
    requires Derivation(c) && Level(c) <= 13 && Stops(13, Head(rest))
    ensures Conditional(Spell(c, rest), true) == State(Strip(c), rest, true)
    decreases c, 13, 0
  {
    if c.Ternary? {
      var ts := More(Colon, Spell(c.whenFalse, rest));
      ReadsBinary(12, c.cond, More(Question, Spell(c.whenTrue, ts)));
      ReadsAssignment(c.whenTrue, ts);
      ReadsConditional(c.whenFalse, rest);
      ChoiceStep(Strip(c.cond), Spell(c.whenTrue, ts), State(Strip(c.whenTrue), ts, true));
    } else {
      ReadsBinary(12, c, rest);
    }
  }

  lemma {:induction false} ChoiceStep(cond: Expr, ts: Tokens, t: State)
    requires Assigned(ts, true) == t && t.ok && Head(t.rest) == Colon
    ensures var e := Conditional(t.rest.tail, true);
            Choice(State(cond, More(Question, ts), true)) == State(Ternary(cond, t.e, e.e), e.rest, e.ok)
  {
  }

  /** The parser reads every derivation as its tree and stops right after it, when the
      next token cannot continue an expression. */
  lemma {:induction false} ReadsAssignment(c: Expr, rest: Tokens)
    requires Derivation(c) && Stops(14, Head(rest))
    ensures Assigned(Spell(c, rest), true) == State(Strip(c), rest, true)
    decreases c, 14, 0
  {
    if c.Assignment? {
      ReadsConditional(c.target, More(AssignToken(c.how), Spell(c.value, rest)));
      ReadsAssignment(c.value, rest);
      SettingStep(Strip(c.target), c.how, Spell(c.value, rest));
    } else {
      ReadsConditional(c, rest);
    }
  }

  lemma {:induction false} SettingStep(l: Expr, op: AssignOp, ts: Tokens)
    ensures var r := Assigned(ts, true);
            Setting(State(l, More(AssignToken(op), ts), true)) == State(Assignment(op, l, r.e), r.rest, r.ok)
  {
    assert AssignOf(AssignToken(op)) == Some(op);
  }

  /** Parsing the minimally parenthesised print of a tree gives back the tree and consumes
      exactly the print. */
  lemma {:induction false} RoundTrip(e: Expr, rest: Tokens)
    requires Plain(e) && Stops(14, Head(rest))
    ensures Assigned(Spell(Minimal(e, 14), rest), true) == State(e, rest, true)
  {
    MinimalDerives(e, 14);
    ReadsAssignment(Minimal(e, 14), rest);
  }

  /** A token string has at most one reading. */
  lemma {:induction false} Unambiguous(c: Expr, d: Expr)
    requires Derivation(c) && Derivation(d) && Spell(c, End) == Spell(d, End)
    ensures Strip(c) == Strip(d)
  {
    ReadsAssignment(c, End);
    ReadsAssignment(d, End);
  }

  // ---------------------------------------------------------------------------
  // Whatever is accepted is a derivation
  // ---------------------------------------------------------------------------

  /** `c` is a derivation of at most level `k` of what was consumed between `ts` and `r`. */
  ghost predicate Derives(c: Expr, k: nat, ts: Tokens, r: State) {
    Derivation(c) && Level(c) <= k && ts == Spell(c, r.rest) && Strip(c) == r.e
  }

  lemma {:induction false} AcceptsPrimary(ts: Tokens) returns (c: Expr)
    requires Primary(ts, true).ok
    ensures Derives(c, 0, ts, Primary(ts, true))
    decreases Size(ts), 0
  {
    match Head(ts)
    case Literal(v) => c := Const(v);
    case Ident(s) => c := Var(s);
    case LParen =>
      var e := AcceptsAssignment(ts.tail);
      c := Paren(e);
  }

  lemma {:induction false} AcceptsSuffixed(ts: Tokens) returns (c: Expr)
    requires Suffixed(ts, true).ok
    ensures Derives(c, 1, ts, Suffixed(ts, true))
    decreases Size(ts), 1
  {
    c := AcceptsPrimary(ts);
    NeverMissing(c);
    c := AcceptsSuffixes(ts, Primary(ts, true), c);
  }

  lemma {:induction false} AcceptsSuffixes(ts: Tokens, s: State, c0: Expr) returns (c: Expr)
    requires s.ok && Suffixes(s).ok && Derives(c0, 1, ts, s)
    ensures Derives(c, 1, ts, Suffixes(s))
    decreases Size(s.rest), 0, 2
  {
    match Suffix(s)
    case Some(next) =>
      c := AcceptsSuffix(ts, s, c0);
      c := AcceptsSuffixes(ts, next, c);
    case None => c := c0;
  }

  lemma {:induction false} AcceptsSuffix(ts: Tokens, s: State, c0: Expr) returns (c: Expr)
    requires s.ok && Suffix(s).Some? && Suffix(s).value.ok && Derives(c0, 1, ts, s)
    ensures Derives(c, 1, ts, Suffix(s).value)
    decreases Size(s.rest), 0, 1
  {
    match Head(s.rest)
    case LParen => c := AcceptsCall(ts, s, c0);
    case LBracket => c := AcceptsIndex(ts, s, c0);
    case Dot => c := Member(c0, false, Head(s.rest.tail).name);
    case Arrow => c := Member(c0, true, Head(s.rest.tail).name);
    case PlusPlus => c := Postfix(PostInc, c0);
    case MinusMinus => c := Postfix(PostDec, c0);
  }

  lemma {:induction false} AcceptsCall(ts: Tokens, s: State, c0: Expr) returns (c: Expr)
    requires Head(s.rest) == LParen && s.ok && Called(s).ok && Derives(c0, 1, ts, s)
    ensures Derives(c, 1, ts, Called(s))
    decreases Size(s.rest), 0, 0
  {
    var args := AcceptsArguments(s.rest.tail);
    c := Call(c0, args);
  }

  lemma {:induction false} AcceptsIndex(ts: Tokens, s: State, c0: Expr) returns (c: Expr)
    requires Head(s.rest) == LBracket && s.ok && Indexed(s).ok && Derives(c0, 1, ts, s)
    ensures Derives(c, 1, ts, Indexed(s))
    decreases Size(s.rest), 0, 0
  {
    var i := AcceptsAssignment(s.rest.tail);
    c := Index(c0, i);
  }

  ghost predicate ArgsDerive(cs: seq<Expr>, ts: Tokens, rest: Tokens) {
    (forall c :: c in cs ==> Derivation(c)) && ts == SpellArgs(cs, rest)
  }

  lemma {:induction false} AcceptsArguments(ts: Tokens) returns (cs: seq<Expr>)
    requires Arguments(ts, true).ok
    ensures ArgsDerive(cs, ts, Arguments(ts, true).rest) && StripAll(cs) == Arguments(ts, true).args
    decreases Size(ts), 16
  {
    if Head(ts) == RParen {
      cs := [];
    } else {
      cs := AcceptsMoreArguments([], ts);
      assert [] + StripAll(cs) == StripAll(cs);
    }
  }

  lemma {:induction false} AcceptsMoreArguments(done: seq<Expr>, ts: Tokens) returns (cs: seq<Expr>)
    requires MoreArguments(done, ts, true).ok
    ensures cs != [] && ArgsDerive(cs, ts, MoreArguments(done, ts, true).rest)
    ensures MoreArguments(done, ts, true).args == done + StripAll(cs)
    decreases Size(ts), 15
  {
    var a := Assigned(ts, true);
    var c := AcceptsAssignment(ts);
    if Head(a.rest) == Comma {
      var more := AcceptsMoreArguments(done + [a.e], a.rest.tail);
      cs := ArgumentBefore(c, more, done, a.rest.tail, MoreArguments(done, ts, true).rest);
    } else {
      cs := LastArgument(c, done, a.rest);
    }
  }

  lemma {:induction false} LastArgument(c: Expr, done: seq<Expr>, rest: Tokens) returns (cs: seq<Expr>)
    requires Derivation(c)
    ensures cs != [] && ArgsDerive(cs, Spell(c, rest), rest) && done + StripAll(cs) == done + [Strip(c)]
  {
    cs := [c];
    StripFirst(done, cs);
  }

  lemma {:induction false} ArgumentBefore(c: Expr, more: seq<Expr>, done: seq<Expr>, ts: Tokens, rest: Tokens)
      returns (cs: seq<Expr>)
    requires Derivation(c) && more != [] && ArgsDerive(more, ts, rest)
    ensures cs != [] && ArgsDerive(cs, Spell(c, More(Comma, ts)), rest)
    ensures done + StripAll(cs) == done + [Strip(c)] + StripAll(more)
  {
    cs := [c] + more;
    assert cs[1..] == more;
    StripFirst(done, cs);
  }

  lemma {:induction false} AcceptsUnary(ts: Tokens) returns (c: Expr)
    requires Unary(ts, true).ok
    ensures Derives(c, 2, ts, Unary(ts, true))
    decreases Size(ts), 2
  {
    match PrefixOf(Head(ts))
    case Some(op) =>
      var e := AcceptsUnary(ts.tail);
      c := Prefix(op, e);
      PrefixDerives(ts, op, Unary(ts.tail, true), e);
    case None => c := AcceptsSuffixed(ts);
  }

  lemma {:induction false} PrefixDerives(ts: Tokens, op: PrefixOp, s: State, c: Expr)
    requires PrefixOf(Head(ts)) == Some(op) && Derives(c, 2, ts.tail, s)
    ensures Derives(Prefix(op, c), 2, ts, State(Prefix(op, s.e), s.rest, true))
  {
  }

  lemma {:induction false} AcceptsOperand(k: nat, ts: Tokens) returns (c: Expr)
    requires 3 <= k <= 12 && Operand(k, ts, true).ok
    ensures Derives(c, k - 1, ts, Operand(k, ts, true))
    decreases Size(ts), k, 0
  {
    if k == 3 { c := AcceptsUnary(ts); } else { c := AcceptsBinary(k - 1, ts); }
  }

  lemma {:induction false} AcceptsBinary(k: nat, ts: Tokens) returns (c: Expr)
    requires 3 <= k <= 12 && BinaryLevel(k, ts, true).ok
    ensures Derives(c, k, ts, BinaryLevel(k, ts, true))
    decreases Size(ts), k, 1
  {
    c := AcceptsOperand(k, ts);
    c := AcceptsChain(k, ts, Operand(k, ts, true), c);
  }

  lemma {:induction false} AcceptsChain(k: nat, ts: Tokens, s: State, c0: Expr) returns (c: Expr)
    requires 3 <= k <= 12 && s.ok && Chain(k, s).ok && Derives(c0, k, ts, s)
    ensures Derives(c, k, ts, Chain(k, s))
    decreases Size(s.rest), 0
  {
    match BinaryAt(k, Head(s.rest))
    case Some(op) =>
      var r := Operand(k, s.rest.tail, true);
      var d := AcceptsOperand(k, s.rest.tail);
      c := AcceptsChain(k, ts, State(Binary(op, s.e, r.e), r.rest, true), Binary(op, c0, d));
    case None => c := c0;
  }

  lemma {:induction false} AcceptsConditional(ts: Tokens) returns (c: Expr)
    requires Conditional(ts, true).ok
    ensures Derives(c, 13, ts, Conditional(ts, true))
    decreases Size(ts), 13, 1
  {
    c := AcceptsBinary(12, ts);
    c := AcceptsChoice(ts, BinaryLevel(12, ts, true), c);
  }

  lemma {:induction false} AcceptsChoice(ts: Tokens, s: State, c0: Expr) returns (c: Expr)
    requires s.ok && Choice(s).ok && Derives(c0, 12, ts, s)
    ensures Derives(c, 13, ts, Choice(s))
    decreases Size(s.rest), 13, 0
  {
    c := c0;
    if Head(s.rest) == Question {
      var t := Assigned(s.rest.tail, true);
      var ct := AcceptsAssignment(s.rest.tail);
      var ce := AcceptsConditional(t.rest.tail);
      c := Ternary(c0, ct, ce);
      TernaryDerives(ts, s, c0, t, ct, Conditional(t.rest.tail, true), ce);
    }
  }

  lemma {:induction false} TernaryDerives(ts: Tokens, b: State, cb: Expr, t: State, ct: Expr, e: State, ce: Expr)
    requires Derives(cb, 12, ts, b) && Head(b.rest) == Question
    requires Derives(ct, 14, b.rest.tail, t) && Head(t.rest) == Colon && Derives(ce, 13, t.rest.tail, e)
    ensures Derives(Ternary(cb, ct, ce), 13, ts, State(Ternary(b.e, t.e, e.e), e.rest, true))
  {
  }

  /** When the parser raises no error, what it consumed is a derivation of the tree it returns. */
  lemma {:induction false} AcceptsAssignment(ts: Tokens) returns (c: Expr)
    requires Assigned(ts, true).ok
    ensures Derives(c, 14, ts, Assigned(ts, true))
    decreases Size(ts), 14, 1
  {
    c := AcceptsConditional(ts);
    c := AcceptsSetting(ts, Conditional(ts, true), c);
  }

  lemma {:induction false} AcceptsSetting(ts: Tokens, s: State, c0: Expr) returns (c: Expr)
    requires s.ok && Setting(s).ok && Derives(c0, 13, ts, s)
    ensures Derives(c, 14, ts, Setting(s))
    decreases Size(s.rest), 14, 0
  {
    match AssignOf(Head(s.rest))
    case Some(op) =>
      var cr := AcceptsAssignment(s.rest.tail);
      c := Assignment(op, c0, cr);
      AssignmentDerives(ts, s, c0, op, Assigned(s.rest.tail, true), cr);
    case None => c := c0;
  }

  lemma {:induction false} AssignmentDerives(ts: Tokens, l: State, cl: Expr, op: AssignOp, r: State, cr: Expr)
    requires Derives(cl, 13, ts, l) && AssignOf(Head(l.rest)) == Some(op) && Derives(cr, 14, l.rest.tail, r)
    ensures Derives(Assignment(op, cl, cr), 14, ts, State(Assignment(op, l.e, r.e), r.rest, true))
  {
  }

  /** Reading `e` without error up to a token that cannot continue an expression is the
      same as the consumed tokens being a derivation of `e`. */
  lemma {:induction false} ParsesTheGrammar(ts: Tokens, e: Expr, rest: Tokens)
    requires Stops(14, Head(rest))
    ensures Assigned(ts, true) == State(e, rest, true)
            <==> exists c :: Derivation(c) && ts == Spell(c, rest) && Strip(c) == e
  {
    if Assigned(ts, true) == State(e, rest, true) {
      var c := AcceptsAssignment(ts);
      assert Derivation(c) && ts == Spell(c, rest) && Strip(c) == e;
    }
    forall c | Derivation(c) && ts == Spell(c, rest) && Strip(c) == e
      ensures Assigned(ts, true) == State(e, rest, true)
    {
      ReadsAssignment(c, rest);
    }
  }
}
