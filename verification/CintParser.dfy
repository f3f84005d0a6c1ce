/** The recursive-descent expression parser of the CINT interpreter.

    The ten functions from the multiplicative to the logical-or level have one body that
    differs only in the operators of the level and in the function called for operands;
    they are one member here, with the level as parameter. Source positions are dropped. */
module CintParser {
  import opened Basics
  import opened CintExpr

  // ---------------------------------------------------------------------------
  // What each parsing function computes
  // ---------------------------------------------------------------------------

  /** The tree just parsed and the tokens left. `ok` until an error is raised or an
      argument list overruns its array. */
  datatype State = State(e: Expr, rest: Tokens, ok: bool)

  /** Requires one token, which is consumed if it is there. */
  function Expected(s: State, t: Token): (r: State)
    requires t != Eof
    ensures Size(r.rest) <= Size(s.rest) && (r.ok ==> s.ok) && r.e == s.e
  {
    if Head(s.rest) == t then s.(rest := s.rest.tail) else s.(ok := false)
  }

  function Primary(ts: Tokens, ok: bool): (r: State)
    ensures Size(r.rest) <= Size(ts) && (r.ok ==> ok)
    decreases Size(ts), 0
  {
    match Head(ts)
    case Literal(v) => State(Const(v), ts.tail, ok)
    case Ident(s) => State(Var(s), ts.tail, ok)
    case LParen => Expected(Assigned(ts.tail, ok), RParen)
    case _ => State(Missing, ts, false)
  }

  function Suffixed(ts: Tokens, ok: bool): (r: State)
    ensures Size(r.rest) <= Size(ts) && (r.ok ==> ok)
    decreases Size(ts), 1, 3
  {
    var s := Primary(ts, ok);
    if s.e.Missing? then s else Suffixes(s)
  }

  /** The loop over calls, indices, member accesses and postfix operators. */
  function Suffixes(s: State): (r: State)
    ensures Size(r.rest) <= Size(s.rest) && (r.ok ==> s.ok)
    decreases Size(s.rest), 1, 2
  {
    match Suffix(s)
    case Some(next) => Suffixes(next)
    case None => s
  }

  /** One round of the loop. */
  function Suffix(s: State): (r: Option<State>)
    ensures r.Some? ==> Size(r.value.rest) < Size(s.rest) && (r.value.ok ==> s.ok)
    decreases Size(s.rest), 1, 1
  {
    match Head(s.rest)
    case LParen => Some(Called(s))
    case LBracket => Some(Indexed(s))
    case Dot => Some(MemberName(s, false))
    case Arrow => Some(MemberName(s, true))
    case PlusPlus => Some(State(Postfix(PostInc, s.e), s.rest.tail, s.ok))
    case MinusMinus => Some(State(Postfix(PostDec, s.e), s.rest.tail, s.ok))
    case _ => None
  }

  function Called(s: State): (r: State)
    requires s.rest.More?
    ensures Size(r.rest) < Size(s.rest) && (r.ok ==> s.ok)
    decreases Size(s.rest), 1, 0
  {
    var a := Arguments(s.rest.tail, s.ok);
    Expected(State(Call(s.e, a.args), a.rest, a.ok), RParen)
  }

  function Indexed(s: State): (r: State)
    requires s.rest.More?
    ensures Size(r.rest) < Size(s.rest) && (r.ok ==> s.ok)
    decreases Size(s.rest), 1, 0
  {
    var i := Assigned(s.rest.tail, s.ok);
    Expected(State(Index(s.e, i.e), i.rest, i.ok), RBracket)
  }

  /** The name after a dot or an arrow. After an error the name is arbitrary, here empty. */
  function MemberName(s: State, arrow: bool): (r: State)
    requires s.rest.More?
    ensures Size(r.rest) < Size(s.rest) && (r.ok ==> s.ok)
  {
    match Head(s.rest.tail)
    case Ident(name) => State(Member(s.e, arrow, name), s.rest.tail.tail, s.ok)
    case _ => State(Member(s.e, arrow, ""), s.rest.tail, false)
  }

  datatype ArgsState = ArgsState(args: seq<Expr>, rest: Tokens, ok: bool)

  function Arguments(ts: Tokens, ok: bool): (r: ArgsState)
    ensures Size(r.rest) <= Size(ts) && (r.ok ==> ok && |r.args| <= MaxArgs)
    decreases Size(ts), 16
  {
    if Head(ts) == RParen then ArgsState([], ts, ok) else MoreArguments([], ts, ok)
  }

  /** The loop over the arguments of a call. */
  function MoreArguments(args: seq<Expr>, ts: Tokens, ok: bool): (r: ArgsState)
    ensures Size(r.rest) <= Size(ts) && (r.ok ==> ok && |r.args| <= MaxArgs)
    decreases Size(ts), 15
  {
    var a := Assigned(ts, ok);
    var args' := args + [a.e];
    var ok' := a.ok && |args'| <= MaxArgs;
    if Head(a.rest) == Comma then MoreArguments(args', a.rest.tail, ok') else ArgsState(args', a.rest, ok')
  }

  function Unary(ts: Tokens, ok: bool): (r: State)
    ensures Size(r.rest) <= Size(ts) && (r.ok ==> ok)
    decreases Size(ts), 2
  {
    match PrefixOf(Head(ts))
    case Some(op) =>
      var s := Unary(ts.tail, ok);
      State(Prefix(op, s.e), s.rest, s.ok)
    case None => Suffixed(ts, ok)
  }

  /** The operator of a binary level a token stands for, if any. */
  function BinaryAt(k: nat, t: Token): (op: Option<BinaryOp>)
    ensures op.Some? ==> OpLevel(op.value) == k && BinaryToken(op.value) == t
  {
    if BinaryOf(t).Some? && OpLevel(BinaryOf(t).value) == k then BinaryOf(t) else None
  }

  function Operand(k: nat, ts: Tokens, ok: bool): (r: State)
    requires 3 <= k <= 12
    ensures Size(r.rest) <= Size(ts) && (r.ok ==> ok)
    decreases Size(ts), k, 0
  {
    if k == 3 then Unary(ts, ok) else BinaryLevel(k - 1, ts, ok)
  }

  function BinaryLevel(k: nat, ts: Tokens, ok: bool): (r: State)
    requires 3 <= k <= 12
    ensures Size(r.rest) <= Size(ts) && (r.ok ==> ok)
    decreases Size(ts), k, 1
  {
    Chain(k, Operand(k, ts, ok))
  }

  /** The loop over the operators of a level, which associate to the left. */
  function Chain(k: nat, s: State): (r: State)
    requires 3 <= k <= 12
    ensures Size(r.rest) <= Size(s.rest) && (r.ok ==> s.ok)
    decreases Size(s.rest), 0
  {
    match BinaryAt(k, Head(s.rest))
    case Some(op) =>
      var r := Operand(k, s.rest.tail, s.ok);
      Chain(k, State(Binary(op, s.e, r.e), r.rest, r.ok))
    case None => s
  }

  function Conditional(ts: Tokens, ok: bool): (r: State)
    ensures Size(r.rest) <= Size(ts) && (r.ok ==> ok)
    decreases Size(ts), 13, 1
  {
    Choice(BinaryLevel(12, ts, ok))
  }

  /** The branches of a conditional, if a question mark follows its condition. */
  function Choice(c: State): (r: State)
    ensures Size(r.rest) <= Size(c.rest) && (r.ok ==> c.ok)
    decreases Size(c.rest), 13, 0
  {
    if Head(c.rest) == Question then Otherwise(c.e, Expected(Assigned(c.rest.tail, c.ok), Colon)) else c
  }

  /** The last branch of a conditional. */
  function Otherwise(cond: Expr, t: State): (r: State)
    ensures Size(r.rest) <= Size(t.rest) && (r.ok ==> t.ok)
    decreases Size(t.rest), 15
  {
    var e := Conditional(t.rest, t.ok);
    State(Ternary(cond, t.e, e.e), e.rest, e.ok)
  }

  function Assigned(ts: Tokens, ok: bool): (r: State)
    ensures Size(r.rest) <= Size(ts) && (r.ok ==> ok)
    decreases Size(ts), 14, 1
  {
    Setting(Conditional(ts, ok))
  }

  /** The value of an assignment, if an assignment operator follows its target. */
  function Setting(l: State): (r: State)
    ensures Size(r.rest) <= Size(l.rest) && (r.ok ==> l.ok)
    decreases Size(l.rest), 14, 0
  {
    match AssignOf(Head(l.rest))
    case Some(op) =>
      var r := Assigned(l.rest.tail, l.ok);
      State(Assignment(op, l.e, r.e), r.rest, r.ok)
    case None => l
  }

  // ---------------------------------------------------------------------------
  // The parser object
  // ---------------------------------------------------------------------------

  class Parser {
    var prev: Token
    var input: Tokens
    var hadError: bool
    /** Set once an argument list has written past the end of its array of 64. */
    var overrun: bool

    constructor (ts: Tokens)
      ensures input == ts && Ok()
    {
      prev, input, hadError, overrun := Eof, ts, false, false;
    }

    predicate Ok()
      reads this
    {
      !hadError && !overrun
    }

    /** The parser state, `e` being the tree at hand. */
    function With(e: Expr): State
      reads this
    {
      State(e, input, Ok())
    }

    method Advance()
      modifies this`prev, this`input
      ensures prev == old(Head(input))
      ensures input == if old(input).More? then old(input).tail else End
    {
      prev := Head(input);
      if input.More? { input := input.tail; }
    }

    /** Consumes the current token if it is `t`. */
    method Match(t: Token) returns (b: bool)
      requires t != Eof
      modifies this`prev, this`input
      ensures b == (old(Head(input)) == t)
      ensures if b then old(input).More? && input == old(input).tail && prev == t else input == old(input) && prev == old(prev)
    {
      b := Head(input) == t;
      if b { Advance(); }
    }

    /** Consumes the current token if it is `t`, and raises an error if it is not. */
    method Expect(t: Token)
      requires t != Eof
      modifies this`prev, this`input, this`hadError
      ensures old(Head(input)) == t ==> old(input).More? && input == old(input).tail && Ok() == old(Ok())
      ensures old(Head(input)) != t ==> input == old(input) && !Ok()
    {
      var b := Match(t);
      if !b { hadError := true; }
    }

    method ParsePrimary() returns (e: Expr)
      modifies this
      ensures With(e) == Primary(old(input), old(Ok()))
      decreases Size(input), 0
    {
      match Head(input)
      case Literal(v) =>
        Advance();
        e := Const(v);
      case Ident(s) =>
        Advance();
        e := Var(s);
      case LParen =>
        e := ParseParenthesised();
      case _ =>
        hadError := true;
        e := Missing;
    }

    method ParseParenthesised() returns (e: Expr)
      requires Head(input) == LParen
      modifies this
      ensures With(e) == Expected(Assigned(old(input).tail, old(Ok())), RParen)
      decreases Size(input), 0, 0
    {
      Advance();
      e := ParseUpTo(RParen);
    }

    method ParsePostfix() returns (e: Expr)
      modifies this
      ensures With(e) == Suffixed(old(input), old(Ok()))
      decreases Size(input), 1, 3
    {
      e := ParsePrimary();
      if e.Missing? { return; }
      ghost var s := With(e);
      var going := true;
      while going
        invariant Size(input) <= old(Size(input))
        invariant Suffixes(s) == if going then Suffixes(With(e)) else With(e)
        decreases going, Size(input)
      {
        e, going := ParseSuffix(e);
      }
    }

    /** One round of the suffix loop; `found` unless no suffix follows. */
    method ParseSuffix(operand: Expr) returns (e: Expr, found: bool)
      modifies this
      ensures Suffix(old(With(operand))) == if found then Some(With(e)) else None
      ensures !found ==> With(e) == old(With(operand))
      decreases Size(input), 1, 1
    {
      e, found := operand, true;
      match Head(input)
      case LParen => e := ParseCall(operand);
      case LBracket => e := ParseIndex(operand);
      case Dot => e := ParseMember(operand, false);
      case Arrow => e := ParseMember(operand, true);
      case PlusPlus =>
        Advance();
        e := Postfix(PostInc, operand);
      case MinusMinus =>
        Advance();
        e := Postfix(PostDec, operand);
      case _ => found := false;
    }

    method ParseCall(operand: Expr) returns (e: Expr)
      requires input.More?
      modifies this
      ensures With(e) == Called(old(With(operand)))
      decreases Size(input), 1, 0
    {
      ghost var s := With(operand);
      Advance();
      assert input == s.rest.tail && Ok() == s.ok;
      var args := ParseArguments();
      assert ArgsState(args, input, Ok()) == Arguments(s.rest.tail, s.ok);
      Expect(RParen);
      e := Call(operand, args);
    }

    method ParseIndex(operand: Expr) returns (e: Expr)
      requires input.More?
      modifies this
      ensures With(e) == Indexed(old(With(operand)))
      decreases Size(input), 1, 0
    {
      Advance();
      var i := ParseAssignment();
      Expect(RBracket);
      e := Index(operand, i);
    }

    method ParseMember(operand: Expr, arrow: bool) returns (e: Expr)
      requires input.More?
      modifies this
      ensures With(e) == MemberName(old(With(operand)), arrow)
    {
      Advance();
      if Head(input).Ident? {
        Advance();
        e := Member(operand, arrow, prev.name);
      } else {
        hadError := true;
        e := Member(operand, arrow, "");
      }
    }

    method ParseArguments() returns (args: seq<Expr>)
      modifies this
      ensures ArgsState(args, input, Ok()) == Arguments(old(input), old(Ok()))
      decreases Size(input), 16
    {
      args := [];
      if Head(input) == RParen { return; }
      var going := true;
      while going
        invariant Size(input) <= old(Size(input))
        invariant MoreArguments([], old(input), old(Ok()))
               == if going then MoreArguments(args, input, Ok()) else ArgsState(args, input, Ok())
        decreases going, Size(input)
      {
        var a := ParseAssignment();
        args := args + [a];
        if |args| > MaxArgs { overrun := true; }
        going := Match(Comma);
      }
    }

    method ParseUnary() returns (e: Expr)
      modifies this
      ensures With(e) == Unary(old(input), old(Ok()))
      decreases Size(input), 2
    {
      match PrefixOf(Head(input))
      case Some(op) =>
        Advance();
        e := ParseUnary();
        e := Prefix(op, e);
      case None =>
        e := ParsePostfix();
    }

    method ParseOperand(k: nat) returns (e: Expr)
      requires 3 <= k <= 12
      modifies this
      ensures With(e) == Operand(k, old(input), old(Ok()))
      decreases Size(input), k, 0
    {
      if k == 3 { e := ParseUnary(); } else { e := ParseBinary(k - 1); }
    }

    method ParseBinary(k: nat) returns (left: Expr)
      requires 3 <= k <= 12
      modifies this
      ensures With(left) == BinaryLevel(k, old(input), old(Ok()))
      decreases Size(input), k, 1
    {
      left := ParseOperand(k);
      while BinaryAt(k, Head(input)).Some?
        invariant Size(input) <= old(Size(input))
        invariant BinaryLevel(k, old(input), old(Ok())) == Chain(k, With(left))
        decreases Size(input)
      {
        var op := BinaryAt(k, Head(input)).value;
        Advance();
        var right := ParseOperand(k);
        left := Binary(op, left, right);
      }
    }

    method ParseTernary() returns (e: Expr)
      modifies this
      ensures With(e) == Conditional(old(input), old(Ok()))
      decreases Size(input), 13, 1
    {
      e := ParseBinary(12);
      e := ParseChoice(e);
    }

    method ParseChoice(cond: Expr) returns (e: Expr)
      modifies this
      ensures With(e) == Choice(old(With(cond)))
      decreases Size(input), 13, 0
    {
      e := cond;
      if Head(input) == Question {
        e := ParseBranches(cond);
      }
    }

    method ParseBranches(cond: Expr) returns (e: Expr)
      modifies this
      requires Head(input) == Question
      ensures With(e) == Choice(old(With(cond)))
      decreases Size(input), 13, -1
    {
      ghost var c := With(cond);
      Advance();
      assert input == c.rest.tail && Ok() == c.ok;
      var t := ParseUpTo(Colon);
      assert With(t) == Expected(Assigned(c.rest.tail, c.ok), Colon);
      e := ParseOtherwise(cond, t);
    }

    method ParseOtherwise(cond: Expr, t: Expr) returns (e: Expr)
      modifies this
      ensures With(e) == Otherwise(cond, old(With(t)))
      decreases Size(input), 15
    {
      e := ParseTernary();
      e := Ternary(cond, t, e);
    }

    /** An expression and the token that has to follow it. */
    method ParseUpTo(t: Token) returns (e: Expr)
      requires t != Eof
      modifies this
      ensures With(e) == Expected(Assigned(old(input), old(Ok())), t)
      decreases Size(input), 14, 2
    {
      e := ParseAssignment();
      Expect(t);
    }

    method ParseAssignment() returns (e: Expr)
      modifies this
      ensures With(e) == Assigned(old(input), old(Ok()))
      decreases Size(input), 14, 1
    {
      e := ParseTernary();
      e := ParseSetting(e);
    }

    method ParseSetting(target: Expr) returns (e: Expr)
      modifies this
      ensures With(e) == Setting(old(With(target)))
      decreases Size(input), 14, 0
    {
      e := target;
      match AssignOf(Head(input))
      case Some(op) =>
        Advance();
        var r := ParseAssignment();
        e := Assignment(op, target, r);
      case None =>
    }
  }
}
