/** The expression parser: precedence climbing over binary operators, prefix operators, dereference,
    indexing and parentheses. */
module Pratt {
  import opened Options

  datatype Tok =
    | OrOr | AndAnd | Eq | Ne | Lt | Le | Gt | Ge | Pipe | Caret | Amp | Shl | Shr
    | Plus | Minus | Star | Slash | Percent | Not | Tilde
    | LParen | RParen | LBracket | RBracket | LBrace | Dot | Colon | KwAs
    | Literal(id: int) | Ident(id: int) | Other(id: int) | Eof

  function PrecOf(k: Tok): (r: nat)
    ensures r <= 10
  {
    match k
    case OrOr => 1
    case AndAnd => 2
    case Eq => 3
    case Ne => 3
    case Lt => 4
    case Le => 4
    case Gt => 4
    case Ge => 4
    case Pipe => 5
    case Caret => 6
    case Amp => 7
    case Shl => 8
    case Shr => 8
    case Plus => 9
    case Minus => 9
    case Star => 10
    case Slash => 10
    case Percent => 10
    case _ => 0
  }

  predicate IsPrefix(k: Tok) {
    k.Minus? || k.Not? || k.Tilde? || k.Amp?
  }

  predicate IsAtom(k: Tok) {
    k.Literal? || k.Ident?
  }

  /** A name just read and what stands at k begin a struct literal: `Name { field :`. */
  predicate BeginsLiteral(ts: seq<Tok>, k: nat) {
    0 < k && k + 2 < |ts| && ts[k - 1].Ident? && ts[k].LBrace? && ts[k + 1].Ident? && ts[k + 2].Colon?
  }

  /** What a primary may be followed by and is then taken further; calls, fields, casts and struct literals end the
      modelled part. */
  predicate Continues(ts: seq<Tok>, k: nat)
    requires k < |ts|
  {
    ts[k].LBracket? || ts[k].LParen? || ts[k].Dot? || ts[k].KwAs? || BeginsLiteral(ts, k)
  }

  // ---------------------------------------------------------------------
  // trees
  // ---------------------------------------------------------------------

  /** What the parser builds. */
  datatype Expr =
    | Leaf(atom: Tok)
    | Binary(op: Tok, lhs: Expr, rhs: Expr)
    | Prefix(op: Tok, arg: Expr)
    | Deref(arg: Expr)
    | Index(base: Expr, index: Expr)

  /** A way of writing an expression: the same tree with its parentheses. */
  datatype Form =
    | FLeaf(atom: Tok)
    | FBinary(op: Tok, lhs: Form, rhs: Form)
    | FPrefix(op: Tok, arg: Form)
    | FDeref(arg: Form)
    | FIndex(base: Form, index: Form)
    | FParen(inner: Form)

  function Strip(f: Form): Expr {
    match f
    case FLeaf(k) => Leaf(k)
    case FBinary(op, l, r) => Binary(op, Strip(l), Strip(r))
    case FPrefix(op, x) => Prefix(op, Strip(x))
    case FDeref(x) => Deref(Strip(x))
    case FIndex(b, x) => Index(Strip(b), Strip(x))
    case FParen(x) => Strip(x)
  }

  function Tokens(f: Form): (r: seq<Tok>)
    ensures r != []
  {
    match f
    case FLeaf(k) => [k]
    case FBinary(op, l, r) => Tokens(l) + [op] + Tokens(r)
    case FPrefix(op, x) => [op] + Tokens(x)
    case FDeref(x) => [Star] + Tokens(x)
    case FIndex(b, x) => Tokens(b) + [LBracket] + Tokens(x) + [RBracket]
    case FParen(x) => [LParen] + Tokens(x) + [RParen]
  }

  /** How tightly the outermost piece of a form holds together: binary operators by precedence, then
      prefix operators, then dereference, then everything with its own end. */
  function Level(f: Form): (r: nat)
    ensures r <= 13
  {
    match f
    case FBinary(op, _, _) => PrecOf(op)
    case FPrefix(_, _) => 11
    case FDeref(_) => 12
    case _ => 13
  }

  /** Every operand holds together at least as tightly as its place asks: left operands as tightly as
      their operator, right operands more tightly. */
  predicate Proper(f: Form) {
    match f
    case FLeaf(k) => IsAtom(k)
    case FBinary(op, l, r) =>
      PrecOf(op) > 0 && Proper(l) && Level(l) >= PrecOf(op) && Proper(r) && Level(r) > PrecOf(op)
    case FPrefix(op, x) => IsPrefix(op) && Proper(x) && Level(x) >= 11
    case FDeref(x) => Proper(x) && Level(x) >= 12
    case FIndex(b, x) => Proper(b) && Level(b) >= 13 && Proper(x)
    case FParen(x) => Proper(x)
  }

  predicate Fits(f: Form, m: nat) {
    Proper(f) && Level(f) >= m
  }

  function Max(a: nat, b: nat): nat {
    if a > b then a else b
  }

  /** How many calls of parse_expr nest inside the one that reads the form. */
  function Inner(f: Form): nat {
    match f
    case FLeaf(_) => 0
    case FBinary(_, l, r) => Max(Inner(l), 1 + Inner(r))
    case FPrefix(_, x) => Inner(x)
    case FDeref(x) => Inner(x)
    case FIndex(b, x) => Max(Inner(b), 1 + Inner(x))
    case FParen(x) => 1 + Inner(x)
  }

  // ---------------------------------------------------------------------
  // the parser's rules; `room` is the nesting still allowed
  // ---------------------------------------------------------------------

  ghost predicate TokensOk(ts: seq<Tok>) {
    ts != [] && ts[|ts| - 1] == Eof
  }

  datatype Parsed = Parsed(form: Form, next: nat)

  ghost function ParseExpr(ts: seq<Tok>, i: nat, m: nat, room: nat): (r: Option<Parsed>)
    requires TokensOk(ts) && i < |ts|
    ensures r.Some? ==> i < r.value.next < |ts|
    decreases |ts| - i, 4
  {
    if room == 0 then None
    else
      var u := ParseUnary(ts, i, room - 1);
      if u.None? then None else ParseLoop(ts, u.value.form, u.value.next, m, room - 1)
  }

  /** Binary operators of precedence m or more, each taking a right operand that binds more tightly. */
  ghost function ParseLoop(ts: seq<Tok>, lhs: Form, i: nat, m: nat, room: nat): (r: Option<Parsed>)
    requires TokensOk(ts) && i < |ts|
    ensures r.Some? ==> i <= r.value.next < |ts|
    decreases |ts| - i, 3
  {
    var p := PrecOf(ts[i]);
    if p == 0 || p < m then Some(Parsed(lhs, i))
    else
      var r := ParseExpr(ts, i + 1, p + 1, room);
      if r.None? then None else ParseLoop(ts, FBinary(ts[i], lhs, r.value.form), r.value.next, m, room)
  }

  ghost function ParseUnary(ts: seq<Tok>, i: nat, room: nat): (r: Option<Parsed>)
    requires TokensOk(ts) && i < |ts|
    ensures r.Some? ==> i < r.value.next < |ts|
    decreases |ts| - i, 2
  {
    if IsPrefix(ts[i]) then
      var x := ParseUnary(ts, i + 1, room);
      if x.None? then None else Some(Parsed(FPrefix(ts[i], x.value.form), x.value.next))
    else ParsePostfix(ts, i, room)
  }

  ghost function ParsePostfix(ts: seq<Tok>, i: nat, room: nat): (r: Option<Parsed>)
    requires TokensOk(ts) && i < |ts|
    ensures r.Some? ==> i < r.value.next < |ts|
    decreases |ts| - i, 1
  {
    if ts[i].Star? then
      var x := ParsePostfix(ts, i + 1, room);
      if x.None? then None else Some(Parsed(FDeref(x.value.form), x.value.next))
    else
      var b := ParsePrimary(ts, i, room);
      if b.None? then None else ParseSuffix(ts, b.value.form, b.value.next, room)
  }

  ghost function ParseSuffix(ts: seq<Tok>, e: Form, i: nat, room: nat): (r: Option<Parsed>)
    requires TokensOk(ts) && i < |ts|
    ensures r.Some? ==> i <= r.value.next < |ts|
    decreases |ts| - i, 0
  {
    if ts[i].LBracket? then
      var x := ParseExpr(ts, i + 1, 0, room);
      if x.None? || !ts[x.value.next].RBracket? then None
      else ParseSuffix(ts, FIndex(e, x.value.form), x.value.next + 1, room)
    else if Continues(ts, i) then None
    else Some(Parsed(e, i))
  }

  ghost function ParsePrimary(ts: seq<Tok>, i: nat, room: nat): (r: Option<Parsed>)
    requires TokensOk(ts) && i < |ts|
    ensures r.Some? ==> i < r.value.next < |ts|
    decreases |ts| - i, 0
  {
    if IsAtom(ts[i]) then
      if BeginsLiteral(ts, i + 1) then None else Some(Parsed(FLeaf(ts[i]), i + 1))
    else if ts[i].LParen? then
      var x := ParseExpr(ts, i + 1, 0, room);
      if x.None? || !ts[x.value.next].RParen? then None else Some(Parsed(FParen(x.value.form), x.value.next + 1))
    else None
  }

  // ---------------------------------------------------------------------
  // whatever is parsed is a proper form of the tokens consumed
  // ---------------------------------------------------------------------

  ghost predicate Reads(ts: seq<Tok>, i: nat, r: Parsed) {
    i < r.next < |ts| && Tokens(r.form) == ts[i..r.next]
  }

  /** An expression of precedence m ends before k. */
  predicate Ends(ts: seq<Tok>, k: nat, m: nat)
    requires k < |ts|
  {
    !Continues(ts, k) && (PrecOf(ts[k]) == 0 || PrecOf(ts[k]) < m)
  }

  /** The form stands at i..next, holds together at level m, and needs no more nesting than there is room for. */
  ghost predicate Stands(ts: seq<Tok>, i: nat, r: Parsed, m: nat, room: nat) {
    Reads(ts, i, r) && Fits(r.form, m) && Inner(r.form) <= room && !Continues(ts, r.next)
  }

  lemma {:induction false} ExprSound(ts: seq<Tok>, i: nat, m: nat, room: nat)
    requires TokensOk(ts) && i < |ts| && m <= 11 && ParseExpr(ts, i, m, room).Some?
    ensures room > 0
    ensures var r := ParseExpr(ts, i, m, room).value; Stands(ts, i, r, m, room - 1) && Ends(ts, r.next, m)
    decreases |ts| - i, 4
  {
    UnarySound(ts, i, room - 1);
    var u := ParseUnary(ts, i, room - 1).value;
    LoopSound(ts, i, u.form, u.next, m, room - 1);
  }

  lemma {:induction false} LoopSound(ts: seq<Tok>, start: nat, lhs: Form, i: nat, m: nat, room: nat)
    requires TokensOk(ts) && i < |ts| && m <= 11 && ParseLoop(ts, lhs, i, m, room).Some?
    requires Stands(ts, start, Parsed(lhs, i), m, room) && PrecOf(ts[i]) <= Level(lhs)
    ensures var r := ParseLoop(ts, lhs, i, m, room).value; Stands(ts, start, r, m, room) && Ends(ts, r.next, m)
    decreases |ts| - i, 3
  {
    var p := PrecOf(ts[i]);
    if p != 0 && p >= m {
      ExprSound(ts, i + 1, p + 1, room);
      var r := ParseExpr(ts, i + 1, p + 1, room).value;
      var more := FBinary(ts[i], lhs, r.form);
      BinaryReads(ts, start, lhs, i, r);
      LoopSound(ts, start, more, r.next, m, room);
    }
  }

  lemma BinaryReads(ts: seq<Tok>, start: nat, lhs: Form, i: nat, r: Parsed)
    requires TokensOk(ts) && Reads(ts, start, Parsed(lhs, i)) && Reads(ts, i + 1, r)
    ensures Reads(ts, start, Parsed(FBinary(ts[i], lhs, r.form), r.next))
  {
    assert Tokens(FBinary(ts[i], lhs, r.form)) == ts[start..i] + [ts[i]] + ts[i + 1..r.next] == ts[start..r.next];
  }

  lemma {:induction false} UnarySound(ts: seq<Tok>, i: nat, room: nat)
    requires TokensOk(ts) && i < |ts| && ParseUnary(ts, i, room).Some?
    ensures Stands(ts, i, ParseUnary(ts, i, room).value, 11, room)
    decreases |ts| - i, 2
  {
    if IsPrefix(ts[i]) {
      UnarySound(ts, i + 1, room);
      var x := ParseUnary(ts, i + 1, room).value;
      assert [ts[i]] + ts[i + 1..x.next] == ts[i..x.next];
    } else {
      PostfixSound(ts, i, room);
    }
  }

  lemma {:induction false} PostfixSound(ts: seq<Tok>, i: nat, room: nat)
    requires TokensOk(ts) && i < |ts| && ParsePostfix(ts, i, room).Some?
    ensures Stands(ts, i, ParsePostfix(ts, i, room).value, 12, room)
    decreases |ts| - i, 1
  {
    if ts[i].Star? {
      PostfixSound(ts, i + 1, room);
      var x := ParsePostfix(ts, i + 1, room).value;
      assert [ts[i]] + ts[i + 1..x.next] == ts[i..x.next];
    } else {
      PrimarySound(ts, i, room);
      var b := ParsePrimary(ts, i, room).value;
      SuffixSound(ts, i, b.form, b.next, room);
    }
  }

  lemma {:induction false} SuffixSound(ts: seq<Tok>, start: nat, e: Form, i: nat, room: nat)
    requires TokensOk(ts) && i < |ts| && ParseSuffix(ts, e, i, room).Some?
    requires Reads(ts, start, Parsed(e, i)) && Fits(e, 13) && Inner(e) <= room && !BeginsLiteral(ts, i)
    ensures Stands(ts, start, ParseSuffix(ts, e, i, room).value, 13, room)
    decreases |ts| - i, 0
  {
    if ts[i].LBracket? {
      hide ParseExpr, Tokens, Proper, Inner, ParsePrimary, TokensOk, Reads;
      ExprSound(ts, i + 1, 0, room);
      var x := ParseExpr(ts, i + 1, 0, room).value;
      IndexReads(ts, start, e, i, x);
      IndexFits(e, x.form, room);
      NextNames(ts, x.next);
      SuffixSound(ts, start, FIndex(e, x.form), x.next + 1, room);
    }
  }

  lemma IndexFits(b: Form, x: Form, room: nat)
    requires Fits(b, 13) && Inner(b) <= room && Proper(x) && Inner(x) < room
    ensures Fits(FIndex(b, x), 13) && Inner(FIndex(b, x)) <= room
  {
  }

  lemma NextNames(ts: seq<Tok>, k: nat)
    requires k < |ts| && ts[k] == RBracket
    ensures !BeginsLiteral(ts, k + 1)
  {
  }

  lemma IndexReads(ts: seq<Tok>, start: nat, e: Form, i: nat, x: Parsed)
    requires TokensOk(ts) && Reads(ts, start, Parsed(e, i)) && Reads(ts, i + 1, x)
    requires ts[i] == LBracket && ts[x.next] == RBracket
    ensures Reads(ts, start, Parsed(FIndex(e, x.form), x.next + 1))
  {
    assert Tokens(FIndex(e, x.form)) == ts[start..i] + [ts[i]] + ts[i + 1..x.next] + [ts[x.next]] == ts[start..x.next + 1];
  }

  lemma {:induction false} PrimarySound(ts: seq<Tok>, i: nat, room: nat)
    requires TokensOk(ts) && i < |ts| && ParsePrimary(ts, i, room).Some?
    ensures var r := ParsePrimary(ts, i, room).value; Reads(ts, i, r) && Fits(r.form, 13) && Inner(r.form) <= room && !BeginsLiteral(ts, r.next)
    decreases |ts| - i, 0
  {
    if ts[i].LParen? {
      ExprSound(ts, i + 1, 0, room);
      var x := ParseExpr(ts, i + 1, 0, room).value;
      assert [ts[i]] + ts[i + 1..x.next] + [ts[x.next]] == ts[i..x.next + 1];
    }
  }

  // ---------------------------------------------------------------------
  // every proper form is parsed back
  // ---------------------------------------------------------------------

  /** Tokens(f) stands at i. */
  ghost predicate At(ts: seq<Tok>, i: nat, f: Form) {
    TokensOk(ts) && i + |Tokens(f)| < |ts| && ts[i..i + |Tokens(f)|] == Tokens(f)
  }

  function Past(i: nat, f: Form): nat {
    i + |Tokens(f)|
  }

  lemma SliceOf(ts: seq<Tok>, i: nat, a: seq<Tok>, b: seq<Tok>)
    requires i + |a| + |b| <= |ts| && ts[i..i + |a| + |b|] == a + b
    ensures ts[i..i + |a|] == a && ts[i + |a|..i + |a| + |b|] == b
  {
    assert (a + b)[..|a|] == a && (a + b)[|a|..] == b;
    assert ts[i..i + |a| + |b|][..|a|] == ts[i..i + |a|];
    assert ts[i..i + |a| + |b|][|a|..] == ts[i + |a|..i + |a| + |b|];
  }

  lemma FirstOf(ts: seq<Tok>, i: nat, f: Form)
    requires At(ts, i, f)
    ensures ts[i] == Tokens(f)[0]
  {
    assert ts[i..i + |Tokens(f)|][0] == ts[i];
  }

  lemma {:induction false} StartsAtom(f: Form)
    requires Fits(f, 13)
    ensures IsAtom(Tokens(f)[0]) || Tokens(f)[0].LParen?
  {
    if f.FIndex? {
      StartsAtom(f.base);
    }
  }

  lemma BinaryAt(ts: seq<Tok>, i: nat, f: Form)
    requires At(ts, i, f) && f.FBinary?
    ensures At(ts, i, f.lhs) && ts[Past(i, f.lhs)] == f.op && At(ts, Past(i, f.lhs) + 1, f.rhs)
    ensures Past(Past(i, f.lhs) + 1, f.rhs) == Past(i, f)
  {
    SliceOf(ts, i, Tokens(f.lhs) + [f.op], Tokens(f.rhs));
    SliceOf(ts, i, Tokens(f.lhs), [f.op]);
    assert ts[Past(i, f.lhs)..Past(i, f.lhs) + 1][0] == f.op;
  }

  lemma IndexAt(ts: seq<Tok>, i: nat, f: Form)
    requires At(ts, i, f) && f.FIndex?
    ensures At(ts, i, f.base) && ts[Past(i, f.base)] == LBracket && At(ts, Past(i, f.base) + 1, f.index)
    ensures ts[Past(Past(i, f.base) + 1, f.index)] == RBracket && Past(Past(i, f.base) + 1, f.index) + 1 == Past(i, f)
  {
    var b, x := Tokens(f.base), Tokens(f.index);
    SliceOf(ts, i, b + [LBracket] + x, [RBracket]);
    SliceOf(ts, i, b + [LBracket], x);
    SliceOf(ts, i, b, [LBracket]);
    assert ts[i + |b|..i + |b| + 1][0] == LBracket;
    assert ts[i + |b| + 1 + |x|..i + |b| + 1 + |x| + 1][0] == RBracket;
  }

  lemma ParenAt(ts: seq<Tok>, i: nat, f: Form)
    requires At(ts, i, f) && f.FParen?
    ensures ts[i] == LParen && At(ts, i + 1, f.inner)
    ensures ts[Past(i + 1, f.inner)] == RParen && Past(i + 1, f.inner) + 1 == Past(i, f)
  {
    var x := Tokens(f.inner);
    SliceOf(ts, i, [LParen] + x, [RParen]);
    SliceOf(ts, i, [LParen], x);
    assert ts[i..i + 1][0] == LParen;
    assert ts[i + 1 + |x|..i + 1 + |x| + 1][0] == RParen;
  }

  lemma MarkAt(ts: seq<Tok>, i: nat, f: Form)
    requires At(ts, i, f) && (f.FPrefix? || f.FDeref?)
    ensures ts[i] == (if f.FPrefix? then f.op else Star) && At(ts, i + 1, f.arg) && Past(i + 1, f.arg) == Past(i, f)
  {
    SliceOf(ts, i, [if f.FPrefix? then f.op else Star], Tokens(f.arg));
    assert ts[i..i + 1][0] == ts[i];
  }

  lemma {:induction false} ExprComplete(ts: seq<Tok>, i: nat, f: Form, m: nat, room: nat)
    requires At(ts, i, f) && Fits(f, m) && m <= 11 && Inner(f) < room && Ends(ts, Past(i, f), m)
    ensures ParseExpr(ts, i, m, room) == Some(Parsed(f, Past(i, f)))
    decreases f, 4
  {
    SpineComplete(ts, i, f, m, room - 1);
  }

  /** The loop reaches the form itself, whatever it does next. */
  lemma {:induction false} SpineComplete(ts: seq<Tok>, i: nat, f: Form, m: nat, room: nat)
    requires At(ts, i, f) && Fits(f, m) && m <= 11 && Inner(f) <= room
    requires !Continues(ts, Past(i, f)) && PrecOf(ts[Past(i, f)]) <= Level(f)
    ensures var u := ParseUnary(ts, i, room);
            u.Some? && ParseLoop(ts, u.value.form, u.value.next, m, room) == ParseLoop(ts, f, Past(i, f), m, room)
    decreases f, 3
  {
    if f.FBinary? {
      BinaryAt(ts, i, f);
      BinaryGoesOn(ts, i, f);
      hide At, Tokens, Past, Ends, Continues, ParseUnary, ParseExpr, ParseLoop, PrecOf, BeginsLiteral, TokensOk;
      SpineComplete(ts, i, f.lhs, m, room);
      ExprComplete(ts, Past(i, f.lhs) + 1, f.rhs, PrecOf(f.op) + 1, room);
      LoopGoesOn(ts, f, Past(i, f.lhs), m, room, Past(i, f));
    } else {
      UnaryComplete(ts, i, f, room);
    }
  }

  /** The loop does not stop at either operand of a proper binary form. */
  lemma BinaryGoesOn(ts: seq<Tok>, i: nat, f: Form)
    requires At(ts, i, f) && f.FBinary? && Proper(f) && !Continues(ts, Past(i, f)) && PrecOf(ts[Past(i, f)]) <= PrecOf(f.op)
    requires ts[Past(i, f.lhs)] == f.op && Past(i, f.lhs) < Past(i, f)
    ensures !Continues(ts, Past(i, f.lhs)) && PrecOf(ts[Past(i, f.lhs)]) <= Level(f.lhs) && Ends(ts, Past(i, f), PrecOf(f.op) + 1)
  {
  }

  lemma LoopGoesOn(ts: seq<Tok>, f: Form, at: nat, m: nat, room: nat, next: nat)
    requires TokensOk(ts) && at < next < |ts| && f.FBinary? && ts[at] == f.op && PrecOf(f.op) > 0 && PrecOf(f.op) >= m
    requires at + 1 < |ts| && ParseExpr(ts, at + 1, PrecOf(f.op) + 1, room) == Some(Parsed(f.rhs, next))
    ensures ParseLoop(ts, f.lhs, at, m, room) == ParseLoop(ts, f, next, m, room)
  {
    hide ParseExpr;
  }

  lemma {:induction false} UnaryComplete(ts: seq<Tok>, i: nat, f: Form, room: nat)
    requires At(ts, i, f) && Fits(f, 11) && Inner(f) <= room && !Continues(ts, Past(i, f))
    ensures ParseUnary(ts, i, room) == Some(Parsed(f, Past(i, f)))
    decreases f, 2
  {
    if f.FPrefix? {
      MarkAt(ts, i, f);
      UnaryComplete(ts, i + 1, f.arg, room);
    } else {
      FirstOf(ts, i, f);
      if f.FDeref? {
        MarkAt(ts, i, f);
      } else {
        StartsAtom(f);
      }
      PostfixComplete(ts, i, f, room);
    }
  }

  lemma {:induction false} PostfixComplete(ts: seq<Tok>, i: nat, f: Form, room: nat)
    requires At(ts, i, f) && Fits(f, 12) && Inner(f) <= room && !Continues(ts, Past(i, f))
    ensures ParsePostfix(ts, i, room) == Some(Parsed(f, Past(i, f)))
    decreases f, 1
  {
    if f.FDeref? {
      MarkAt(ts, i, f);
      PostfixComplete(ts, i + 1, f.arg, room);
    } else {
      FirstOf(ts, i, f);
      StartsAtom(f);
      SuffixComplete(ts, i, f, room);
    }
  }

  lemma {:induction false} SuffixComplete(ts: seq<Tok>, i: nat, f: Form, room: nat)
    requires At(ts, i, f) && Fits(f, 13) && Inner(f) <= room && !BeginsLiteral(ts, Past(i, f))
    ensures var b := ParsePrimary(ts, i, room);
            b.Some? && ParseSuffix(ts, b.value.form, b.value.next, room) == ParseSuffix(ts, f, Past(i, f), room)
    decreases f, 0
  {
    hide ParseExpr, ParseSuffix, ParsePrimary, Tokens, At, Past;
    match f
    case FLeaf(_) =>
      LeafStep(ts, i, f, room);
    case FIndex(b, x) =>
      IndexAt(ts, i, f);
      SuffixComplete(ts, i, b, room);
      ExprComplete(ts, Past(i, b) + 1, x, 0, room);
      IndexStep(ts, b, Past(i, b), x, Past(Past(i, b) + 1, x), room);
    case FParen(x) =>
      ParenAt(ts, i, f);
      ExprComplete(ts, i + 1, x, 0, room);
      ParenStep(ts, i, x, Past(i + 1, x), room);
  }

  lemma LeafStep(ts: seq<Tok>, i: nat, f: Form, room: nat)
    requires At(ts, i, f) && f.FLeaf? && IsAtom(f.atom) && !BeginsLiteral(ts, Past(i, f))
    ensures ParsePrimary(ts, i, room) == Some(Parsed(f, Past(i, f)))
  {
    FirstOf(ts, i, f);
    assert Tokens(f) == [f.atom];
  }

  lemma IndexStep(ts: seq<Tok>, b: Form, i: nat, x: Form, next: nat, room: nat)
    requires TokensOk(ts) && i < next < |ts| && ts[i] == LBracket && ts[next] == RBracket && next + 1 < |ts|
    requires ParseExpr(ts, i + 1, 0, room) == Some(Parsed(x, next))
    ensures ParseSuffix(ts, b, i, room) == ParseSuffix(ts, FIndex(b, x), next + 1, room)
  {
    hide ParseExpr;
  }

  lemma ParenStep(ts: seq<Tok>, i: nat, x: Form, next: nat, room: nat)
    requires TokensOk(ts) && i < next < |ts| && ts[i] == LParen && ts[next] == RParen && next + 1 < |ts|
    requires ParseExpr(ts, i + 1, 0, room) == Some(Parsed(x, next))
    ensures ParsePrimary(ts, i, room) == Some(Parsed(FParen(x), next + 1))
  {
    hide ParseExpr;
  }

  /** The parser returns exactly the proper forms of the tokens in front of it that fit the room. */
  lemma ParsesExactly(ts: seq<Tok>, i: nat, m: nat, room: nat, r: Parsed)
    requires TokensOk(ts) && i < |ts| && m <= 11
    ensures ParseExpr(ts, i, m, room) == Some(r) <==>
            Reads(ts, i, r) && Fits(r.form, m) && Inner(r.form) < room && Ends(ts, r.next, m)
  {
    if ParseExpr(ts, i, m, room) == Some(r) {
      ExprSound(ts, i, m, room);
    }
    if Reads(ts, i, r) && Fits(r.form, m) && Inner(r.form) < room && Ends(ts, r.next, m) {
      ExprComplete(ts, i, r.form, m, room);
    }
  }

  /** No token sequence can be written by two different proper forms. */
  lemma Unambiguous(f: Form, g: Form, m: nat)
    requires Fits(f, m) && Fits(g, m) && m <= 11 && Tokens(f) == Tokens(g)
    ensures f == g
  {
    var ts, room := Tokens(f) + [Eof], Inner(f) + 1 + Inner(g);
    hide ParseExpr, Tokens, Inner, Proper;
    ExprComplete(ts, 0, f, m, room);
    ExprComplete(ts, 0, g, m, room);
  }

  // ---------------------------------------------------------------------
  // writing a tree with as few parentheses as possible
  // ---------------------------------------------------------------------

  predicate WellFormed(e: Expr) {
    match e
    case Leaf(k) => IsAtom(k)
    case Binary(op, l, r) => PrecOf(op) > 0 && WellFormed(l) && WellFormed(r)
    case Prefix(op, x) => IsPrefix(op) && WellFormed(x)
    case Deref(x) => WellFormed(x)
    case Index(b, x) => WellFormed(b) && WellFormed(x)
  }

  function Bare(e: Expr): Form
    decreases e, 0
  {
    match e
    case Leaf(k) => FLeaf(k)
    case Binary(op, l, r) => FBinary(op, Write(l, PrecOf(op)), Write(r, PrecOf(op) + 1))
    case Prefix(op, x) => FPrefix(op, Write(x, 11))
    case Deref(x) => FDeref(Write(x, 12))
    case Index(b, x) => FIndex(Write(b, 13), Write(x, 0))
  }

  /** The tree as an operand at level m, parenthesised only where it would otherwise fall apart. */
  function Write(e: Expr, m: nat): Form
    decreases e, 1
  {
    var f := Bare(e);
    if Level(f) < m then FParen(f) else f
  }

  lemma {:induction false} WriteIsProper(e: Expr, m: nat)
    requires WellFormed(e) && m <= 13
    ensures Fits(Write(e, m), m) && Strip(Write(e, m)) == e
  {
    match e
    case Leaf(_) =>
    case Binary(op, l, r) =>
      WriteIsProper(l, PrecOf(op));
      WriteIsProper(r, PrecOf(op) + 1);
    case Prefix(_, x) =>
      WriteIsProper(x, 11);
    case Deref(x) =>
      WriteIsProper(x, 12);
    case Index(b, x) =>
      WriteIsProper(b, 13);
      WriteIsProper(x, 0);
  }

  /** No other way of writing the tree is shorter or nests less. */
  lemma {:induction false} WriteIsLeast(f: Form, m: nat)
    requires Fits(f, m)
    ensures |Tokens(Write(Strip(f), m))| <= |Tokens(f)| && Inner(Write(Strip(f), m)) <= Inner(f)
  {
    match f
    case FLeaf(_) =>
    case FBinary(op, l, r) =>
      WriteIsLeast(l, PrecOf(op));
      WriteIsLeast(r, PrecOf(op) + 1);
    case FPrefix(_, x) =>
      WriteIsLeast(x, 11);
    case FDeref(x) =>
      WriteIsLeast(x, 12);
    case FIndex(b, x) =>
      WriteIsLeast(b, 13);
      WriteIsLeast(x, 0);
    case FParen(x) =>
      WriteIsLeast(x, 0);
  }

  /** What parsing a whole token list as one expression yields. */
  ghost function Whole(ts: seq<Tok>, room: nat): Option<Expr> {
    var r := ParseExpr(ts + [Eof], 0, 0, room);
    if r.Some? && r.value.next == |ts| then Some(Strip(r.value.form)) else None
  }

  /** Writing a tree and parsing it gives the tree back exactly when the nesting limit allows it. */
  lemma RoundTrip(e: Expr, room: nat)
    requires WellFormed(e)
    ensures Whole(Tokens(Write(e, 0)), room) == if Inner(Write(e, 0)) < room then Some(e) else None
  {
    var f := Write(e, 0);
    var ts := Tokens(f) + [Eof];
    WriteIsProper(e, 0);
    assert Reads(ts, 0, Parsed(f, |Tokens(f)|));
    ParsesExactly(ts, 0, 0, room, Parsed(f, |Tokens(f)|));
    var r := ParseExpr(ts, 0, 0, room);
    if r.Some? && r.value.next == |Tokens(f)| {
      ParsesExactly(ts, 0, 0, room, r.value);
      Unambiguous(f, r.value.form, 0);
    }
  }

  /** A tree that parses in some spelling parses in the minimal one. */
  lemma MinimalIsEnough(ts: seq<Tok>, room: nat)
    requires Whole(ts, room).Some?
    ensures var e := Whole(ts, room).value;
            WellFormed(e) && |Tokens(Write(e, 0))| <= |ts| && Whole(Tokens(Write(e, 0)), room) == Some(e)
  {
    var r := ParseExpr(ts + [Eof], 0, 0, room).value;
    ParsesExactly(ts + [Eof], 0, 0, room, r);
    assert Tokens(r.form) == ts;
    WriteIsLeast(r.form, 0);
    ProperIsWellFormed(r.form);
    RoundTrip(Strip(r.form), room);
  }

  lemma {:induction false} ProperIsWellFormed(f: Form)
    requires Proper(f)
    ensures WellFormed(Strip(f))
  {
    match f
    case FLeaf(_) =>
    case FBinary(_, l, r) =>
      ProperIsWellFormed(l);
      ProperIsWellFormed(r);
    case FPrefix(_, x) =>
      ProperIsWellFormed(x);
    case FDeref(x) =>
      ProperIsWellFormed(x);
    case FIndex(b, x) =>
      ProperIsWellFormed(b);
      ProperIsWellFormed(x);
    case FParen(x) =>
      ProperIsWellFormed(x);
  }

  // ---------------------------------------------------------------------
  // which operators there are, and how tightly they bind
  // ---------------------------------------------------------------------

  /** The binary operators, class by class, from the loosest to the tightest. */
  function Classes(): (r: seq<set<Tok>>)
    ensures |r| == 10
  {
    [{OrOr}, {AndAnd}, {Eq, Ne}, {Lt, Le, Gt, Ge}, {Pipe}, {Caret}, {Amp}, {Shl, Shr}, {Plus, Minus}, {Star, Slash, Percent}]
  }

  function Prefixes(): set<Tok> {
    {Minus, Not, Tilde, Amp}
  }

  lemma ClassesByPrec(o: Tok)
    ensures forall c: nat | c < 10 :: o in Classes()[c] <==> PrecOf(o) == c + 1
    ensures PrecOf(o) > 0 <==> exists c: nat :: c < 10 && o in Classes()[c]
    ensures o in Prefixes() <==> IsPrefix(o)
  {
    if PrecOf(o) > 0 {
      assert o in Classes()[PrecOf(o) - 1];
    }
  }

  function Atoms(a: Tok, o: Tok, b: Tok): Expr {
    Binary(o, Leaf(a), Leaf(b))
  }

  /** A form of these tokens for this tree, at this level and no deeper than that. */
  predicate Means(f: Form, ts: seq<Tok>, e: Expr, level: nat, deep: nat) {
    Proper(f) && Tokens(f) == ts && Strip(f) == e && Level(f) == level && Inner(f) <= deep
  }

  lemma LeafMeans(a: Tok) returns (f: Form)
    requires IsAtom(a)
    ensures Means(f, [a], Leaf(a), 13, 0)
  {
    f := FLeaf(a);
  }

  lemma BinaryMeans(o: Tok, f: Form, tf: seq<Tok>, ef: Expr, lf: nat, g: Form, tg: seq<Tok>, eg: Expr, lg: nat, deep: nat) returns (h: Form)
    requires Means(f, tf, ef, lf, deep) && Means(g, tg, eg, lg, deep) && PrecOf(o) > 0 && lf >= PrecOf(o) && lg > PrecOf(o)
    ensures Means(h, tf + [o] + tg, Binary(o, ef, eg), PrecOf(o), deep + 1)
  {
    h := FBinary(o, f, g);
  }

  lemma Deeper(f: Form, ts: seq<Tok>, e: Expr, level: nat)
    requires Means(f, ts, e, level, 0)
    ensures Means(f, ts, e, level, 1)
  {
  }

  lemma PrefixMeans(q: Tok, f: Form, tf: seq<Tok>, ef: Expr, lf: nat, deep: nat) returns (h: Form)
    requires Means(f, tf, ef, lf, deep) && IsPrefix(q) && lf >= 11
    ensures Means(h, [q] + tf, Prefix(q, ef), 11, deep)
  {
    h := FPrefix(q, f);
  }

  lemma DerefMeans(f: Form, tf: seq<Tok>, ef: Expr, lf: nat, deep: nat) returns (h: Form)
    requires Means(f, tf, ef, lf, deep) && lf >= 12
    ensures Means(h, [Star] + tf, Deref(ef), 12, deep)
  {
    h := FDeref(f);
  }

  lemma IndexMeans(f: Form, tf: seq<Tok>, ef: Expr, g: Form, tg: seq<Tok>, eg: Expr, lg: nat, deep: nat) returns (h: Form)
    requires Means(f, tf, ef, 13, deep) && Means(g, tg, eg, lg, deep)
    ensures Means(h, tf + [LBracket] + tg + [RBracket], Index(ef, eg), 13, deep + 1)
  {
    h := FIndex(f, g);
  }

  /** Parsing a form's tokens and nothing else gives its tree. */
  lemma ReadsBack(f: Form, ts: seq<Tok>, e: Expr, level: nat, deep: nat, room: nat)
    requires Means(f, ts, e, level, deep) && deep < room
    ensures Whole(ts, room) == Some(e)
  {
    assert Reads(ts + [Eof], 0, Parsed(f, |ts|));
    ParsesExactly(ts + [Eof], 0, 0, room, Parsed(f, |ts|));
  }

  /** Of two operators the one of the later class takes the middle operand, and of one class the first does. */
  lemma TwoOperators(a: Tok, o1: Tok, b: Tok, o2: Tok, c: Tok, c1: nat, c2: nat, room: nat)
    requires IsAtom(a) && IsAtom(b) && IsAtom(c) && c1 < 10 && c2 < 10 && o1 in Classes()[c1] && o2 in Classes()[c2] && room >= 3
    ensures Whole([a, o1, b, o2, c], room) ==
            Some(if c2 > c1 then Binary(o1, Leaf(a), Atoms(b, o2, c)) else Binary(o2, Atoms(a, o1, b), Leaf(c)))
  {
    ClassesByPrec(o1);
    ClassesByPrec(o2);
    hide Whole, PrecOf, Classes, Means;
    var x := LeafMeans(a);
    var y := LeafMeans(b);
    var z := LeafMeans(c);
    if c2 > c1 {
      var g := BinaryMeans(o2, y, [b], Leaf(b), 13, z, [c], Leaf(c), 13, 0);
      assert [b] + [o2] + [c] == [b, o2, c];
      Deeper(x, [a], Leaf(a), 13);
      var h := BinaryMeans(o1, x, [a], Leaf(a), 13, g, [b, o2, c], Atoms(b, o2, c), PrecOf(o2), 1);
      assert [a] + [o1] + [b, o2, c] == [a, o1, b, o2, c];
      ReadsBack(h, [a, o1, b, o2, c], Binary(o1, Leaf(a), Atoms(b, o2, c)), PrecOf(o1), 2, room);
    } else {
      var g := BinaryMeans(o1, x, [a], Leaf(a), 13, y, [b], Leaf(b), 13, 0);
      assert [a] + [o1] + [b] == [a, o1, b];
      Deeper(z, [c], Leaf(c), 13);
      var h := BinaryMeans(o2, g, [a, o1, b], Atoms(a, o1, b), PrecOf(o1), z, [c], Leaf(c), 13, 1);
      assert [a, o1, b] + [o2] + [c] == [a, o1, b, o2, c];
      ReadsBack(h, [a, o1, b, o2, c], Binary(o2, Atoms(a, o1, b), Leaf(c)), PrecOf(o2), 2, room);
    }
  }

  /** Prefix operators and dereference bind tighter than every binary operator, indexing tighter than those; and a
      dereference is an operand of a prefix operator. */
  lemma PrefixShapes(a: Tok, o: Tok, b: Tok, q: Tok, c: nat, room: nat)
    requires IsAtom(a) && IsAtom(b) && c < 10 && o in Classes()[c] && q in Prefixes() && room >= 3
    ensures Whole([q, a, o, b], room) == Some(Binary(o, Prefix(q, Leaf(a)), Leaf(b)))
    ensures Whole([a, o, q, b], room) == Some(Binary(o, Leaf(a), Prefix(q, Leaf(b))))
    ensures Whole([Star, a, o, b], room) == Some(Binary(o, Deref(Leaf(a)), Leaf(b)))
    ensures Whole([q, Star, a], room) == Some(Prefix(q, Deref(Leaf(a))))
    ensures Whole([q, a, LBracket, b, RBracket], room) == Some(Prefix(q, Index(Leaf(a), Leaf(b))))
    ensures Whole([Star, a, LBracket, b, RBracket], room) == Some(Deref(Index(Leaf(a), Leaf(b))))
  {
    ClassesByPrec(o);
    ClassesByPrec(q);
    hide Whole, PrecOf, Classes, Prefixes, IsPrefix, Means;
    PrefixBeforeBinary(a, o, b, q, room);
    BeforeIndex(a, b, q, room);
  }

  lemma PrefixBeforeBinary(a: Tok, o: Tok, b: Tok, q: Tok, room: nat)
    requires IsAtom(a) && IsAtom(b) && 0 < PrecOf(o) <= 10 && IsPrefix(q) && room >= 3
    ensures Whole([q, a, o, b], room) == Some(Binary(o, Prefix(q, Leaf(a)), Leaf(b)))
    ensures Whole([a, o, q, b], room) == Some(Binary(o, Leaf(a), Prefix(q, Leaf(b))))
    ensures Whole([Star, a, o, b], room) == Some(Binary(o, Deref(Leaf(a)), Leaf(b)))
  {
    hide Whole, PrecOf, Means, IsPrefix;
    var x := LeafMeans(a);
    var y := LeafMeans(b);
    var qx := PrefixMeans(q, x, [a], Leaf(a), 13, 0);
    var qy := PrefixMeans(q, y, [b], Leaf(b), 13, 0);
    var dx := DerefMeans(x, [a], Leaf(a), 13, 0);
    assert [q] + [a] == [q, a] && [q] + [b] == [q, b] && [Star] + [a] == [Star, a];
    var f := BinaryMeans(o, qx, [q, a], Prefix(q, Leaf(a)), 11, y, [b], Leaf(b), 13, 0);
    var g := BinaryMeans(o, x, [a], Leaf(a), 13, qy, [q, b], Prefix(q, Leaf(b)), 11, 0);
    var h := BinaryMeans(o, dx, [Star, a], Deref(Leaf(a)), 12, y, [b], Leaf(b), 13, 0);
    assert [q, a] + [o] + [b] == [q, a, o, b] && [a] + [o] + [q, b] == [a, o, q, b] && [Star, a] + [o] + [b] == [Star, a, o, b];
    ReadsBack(f, [q, a, o, b], Binary(o, Prefix(q, Leaf(a)), Leaf(b)), PrecOf(o), 1, room);
    ReadsBack(g, [a, o, q, b], Binary(o, Leaf(a), Prefix(q, Leaf(b))), PrecOf(o), 1, room);
    ReadsBack(h, [Star, a, o, b], Binary(o, Deref(Leaf(a)), Leaf(b)), PrecOf(o), 1, room);
  }

  lemma BeforeIndex(a: Tok, b: Tok, q: Tok, room: nat)
    requires IsAtom(a) && IsAtom(b) && IsPrefix(q) && room >= 3
    ensures Whole([q, Star, a], room) == Some(Prefix(q, Deref(Leaf(a))))
    ensures Whole([q, a, LBracket, b, RBracket], room) == Some(Prefix(q, Index(Leaf(a), Leaf(b))))
    ensures Whole([Star, a, LBracket, b, RBracket], room) == Some(Deref(Index(Leaf(a), Leaf(b))))
  {
    hide Whole, Means, IsPrefix;
    var x := LeafMeans(a);
    var y := LeafMeans(b);
    var dx := DerefMeans(x, [a], Leaf(a), 13, 0);
    var xy := IndexMeans(x, [a], Leaf(a), y, [b], Leaf(b), 13, 0);
    var ts := [a, LBracket, b, RBracket];
    assert [Star] + [a] == [Star, a] && [a] + [LBracket] + [b] + [RBracket] == ts;
    var f := PrefixMeans(q, dx, [Star, a], Deref(Leaf(a)), 12, 0);
    var g := PrefixMeans(q, xy, ts, Index(Leaf(a), Leaf(b)), 13, 1);
    var h := DerefMeans(xy, ts, Index(Leaf(a), Leaf(b)), 13, 1);
    assert [q] + [Star, a] == [q, Star, a] && [q] + ts == [q, a, LBracket, b, RBracket] && [Star] + ts == [Star, a, LBracket, b, RBracket];
    ReadsBack(f, [q, Star, a], Prefix(q, Deref(Leaf(a))), 11, 0, room);
    ReadsBack(g, [q, a, LBracket, b, RBracket], Prefix(q, Index(Leaf(a), Leaf(b))), 11, 1, room);
    ReadsBack(h, [Star, a, LBracket, b, RBracket], Deref(Index(Leaf(a), Leaf(b))), 12, 1, room);
  }

  /** All operators of a form are operators: no other token joins or precedes operands. */
  predicate OnlyOperators(f: Form) {
    match f
    case FLeaf(_) => true
    case FBinary(op, l, r) => (exists c: nat :: c < 10 && op in Classes()[c]) && OnlyOperators(l) && OnlyOperators(r)
    case FPrefix(op, x) => op in Prefixes() && OnlyOperators(x)
    case FDeref(x) => OnlyOperators(x)
    case FIndex(b, x) => OnlyOperators(b) && OnlyOperators(x)
    case FParen(x) => OnlyOperators(x)
  }

  lemma {:induction false} ProperHasOperators(f: Form)
    requires Proper(f)
    ensures OnlyOperators(f)
  {
    match f
    case FLeaf(_) =>
    case FBinary(op, l, r) =>
      ClassesByPrec(op);
      assert op in Classes()[PrecOf(op) - 1];
      ProperHasOperators(l);
      ProperHasOperators(r);
    case FPrefix(op, x) =>
      ClassesByPrec(op);
      ProperHasOperators(x);
    case FDeref(x) => ProperHasOperators(x);
    case FIndex(b, x) =>
      ProperHasOperators(b);
      ProperHasOperators(x);
    case FParen(x) => ProperHasOperators(x);
  }

  lemma ParsedHasOperators(ts: seq<Tok>, i: nat, m: nat, room: nat)
    requires TokensOk(ts) && i < |ts| && m <= 11 && ParseExpr(ts, i, m, room).Some?
    ensures OnlyOperators(ParseExpr(ts, i, m, room).value.form)
  {
    ExprSound(ts, i, m, room);
    ProperHasOperators(ParseExpr(ts, i, m, room).value.form);
  }

  /** An operand is not cut off in front of a call, a field or a cast, nor a name in front of a struct literal. */
  lemma NotCutOff(ts: seq<Tok>, i: nat, m: nat, room: nat)
    requires TokensOk(ts) && i + 1 < |ts| && IsAtom(ts[i])
    requires ts[i + 1] in {LParen, Dot, KwAs}
             || (i + 3 < |ts| && ts[i].Ident? && ts[i + 1] == LBrace && ts[i + 2].Ident? && ts[i + 3] == Colon)
    ensures ParseExpr(ts, i, m, room).None?
  {
    if room > 0 {
      assert ParsePostfix(ts, i, room - 1).None?;
      assert ParseUnary(ts, i, room - 1).None?;
    }
  }

  /** Any other token that is no operator ends it. */
  lemma EndsElsewhere(ts: seq<Tok>, i: nat, m: nat, room: nat)
    requires TokensOk(ts) && i + 1 < |ts| && IsAtom(ts[i]) && room > 0 && forall c: nat | c < 10 :: ts[i + 1] !in Classes()[c]
    requires ts[i + 1] !in {LBracket, LParen, Dot, KwAs} && (ts[i].Literal? || ts[i + 1] != LBrace)
    ensures ParseExpr(ts, i, m, room) == Some(Parsed(FLeaf(ts[i]), i + 1))
  {
    ClassesByPrec(ts[i + 1]);
    assert ParsePostfix(ts, i, room - 1) == Some(Parsed(FLeaf(ts[i]), i + 1));
    assert ParseUnary(ts, i, room - 1) == Some(Parsed(FLeaf(ts[i]), i + 1));
  }

  function Nested(a: Tok, n: nat): (f: Form)
    ensures Inner(f) == n && (IsAtom(a) ==> Proper(f)) && Strip(f) == Leaf(a)
  {
    if n == 0 then FLeaf(a) else FParen(Nested(a, n - 1))
  }

  /** An atom may stand in 511 pairs of parentheses and no more. */
  lemma DeepestParens(a: Tok, n: nat)
    requires IsAtom(a)
    ensures Whole(Tokens(Nested(a, n)), MAX_DEPTH) == if n <= 511 then Some(Leaf(a)) else None
  {
    var f := Nested(a, n);
    var ts := Tokens(f) + [Eof];
    if n <= 511 {
      ReadsBack(f, Tokens(f), Leaf(a), Level(f), n, MAX_DEPTH);
    } else {
      var r := ParseExpr(ts, 0, 0, MAX_DEPTH);
      if r.Some? && r.value.next == |Tokens(f)| {
        ParsesExactly(ts, 0, 0, MAX_DEPTH, r.value);
        assert Tokens(r.value.form) == Tokens(f);
        Unambiguous(f, r.value.form, 0);
        assert false;
      }
    }
  }

  // ---------------------------------------------------------------------
  // the parser
  // ---------------------------------------------------------------------

  const MAX_DEPTH: nat := 512

  class Parser {
    const toks: seq<Tok>
    var i: nat
    var depth: nat
    /** An error was reported; a call, field access, cast or struct literal, which are not part of this model, also counts. */
    var errored: bool

    ghost predicate Valid()
      reads this
    {
      TokensOk(toks) && i < |toks| && depth <= MAX_DEPTH
    }

    constructor (ts: seq<Tok>)
      requires TokensOk(ts)
      ensures Valid() && toks == ts && i == 0 && depth == 0 && !errored
    {
      toks, i, depth, errored := ts, 0, 0, false;
    }

    method Advance()
      requires Valid()
      modifies this`i
      ensures Valid() && i == if old(i) < |toks| - 1 then old(i) + 1 else old(i)
    {
      if i < |toks| - 1 {
        i := i + 1;
      }
    }

    /** Reports an error when the token is missing and steps over whatever stands there. */
    method Expect(k: Tok)
      requires Valid() && k != Eof
      modifies this`i, this`errored
      ensures Valid() && errored == (old(errored) || toks[old(i)] != k)
      ensures i == if toks[old(i)] == Eof then old(i) else old(i) + 1
    {
      if toks[i] == k {
        Advance();
      } else {
        errored := true;
        if toks[i] != Eof {
          Advance();
        }
      }
    }

    /** What a parsing step leaves behind, given what the rules say it reads. */
    ghost predicate Follows(was: bool, spec: Option<Parsed>, r: Option<Expr>)
      reads this
    {
      && errored == (was || spec.None?)
      && (!errored ==> r == Some(Strip(spec.value.form)) && i == spec.value.next)
    }

    method Expression(m: nat) returns (r: Option<Expr>)
      requires Valid()
      modifies this
      ensures Valid() && depth == old(depth) && i >= old(i)
      ensures Follows(old(errored), ParseExpr(toks, old(i), m, MAX_DEPTH - old(depth)), r)
      decreases |toks| - i, 4
    {
      depth := depth + 1;
      if depth > MAX_DEPTH {
        errored := true;
      }
      if errored {
        depth := depth - 1;
        return None;
      }
      var lhs := Unary();
      if errored {
        depth := depth - 1;
        return lhs;
      }
      ghost var spec := ParseExpr(toks, old(i), m, MAX_DEPTH - old(depth));
      ghost var form := ParseUnary(toks, old(i), MAX_DEPTH - depth).value.form;
      var tree := lhs.value;
      while true
        invariant Valid() && depth == old(depth) + 1 && !errored && i > old(i)
        invariant tree == Strip(form) && spec == ParseLoop(toks, form, i, m, MAX_DEPTH - depth)
        decreases |toks| - i
      {
        var k := toks[i];
        var p := PrecOf(k);
        if p == 0 || p < m {
          break;
        }
        ghost var rest := ParseExpr(toks, i + 1, p + 1, MAX_DEPTH - depth);
        Advance();
        var rhs := Expression(p + 1);
        if errored {
          depth := depth - 1;
          return None;
        }
        tree := Binary(k, tree, rhs.value);
        form := FBinary(k, form, rest.value.form);
      }
      depth := depth - 1;
      return Some(tree);
    }

    method Unary() returns (r: Option<Expr>)
      requires Valid() && !errored
      modifies this
      ensures Valid() && depth == old(depth) && i >= old(i)
      ensures Follows(false, ParseUnary(toks, old(i), MAX_DEPTH - depth), r)
      decreases |toks| - i, 2
    {
      var k := toks[i];
      if !IsPrefix(k) {
        r := Postfix();
        return;
      }
      Advance();
      var x := Unary();
      r := if errored then None else Some(Prefix(k, x.value));
    }

    method Postfix() returns (r: Option<Expr>)
      requires Valid() && !errored
      modifies this
      ensures Valid() && depth == old(depth) && i >= old(i)
      ensures Follows(false, ParsePostfix(toks, old(i), MAX_DEPTH - depth), r)
      decreases |toks| - i, 1
    {
      if toks[i].Star? {
        Advance();
        var x := Postfix();
        return if errored then None else Some(Deref(x.value));
      }
      var base := Primary();
      if errored {
        return base;
      }
      ghost var spec := ParsePostfix(toks, old(i), MAX_DEPTH - depth);
      ghost var form := ParsePrimary(toks, old(i), MAX_DEPTH - depth).value.form;
      var tree := base.value;
      while toks[i].LBracket?
        invariant Valid() && depth == old(depth) && i > old(i)
        invariant errored ==> spec.None?
        invariant !errored ==> tree == Strip(form) && spec == ParseSuffix(toks, form, i, MAX_DEPTH - depth)
        decreases |toks| - i
      {
        ghost var inside := ParseExpr(toks, i + 1, 0, MAX_DEPTH - depth);
        Advance();
        var x := Expression(0);
        Expect(RBracket);
        if !errored {
          tree := Index(tree, x.value);
          form := FIndex(form, inside.value.form);
        }
      }
      if Continues(toks, i) {
        errored := true;
      }
      return Some(tree);
    }

    method Primary() returns (r: Option<Expr>)
      requires Valid() && !errored
      modifies this
      ensures Valid() && depth == old(depth) && i >= old(i) && (!errored ==> i > old(i))
      ensures Follows(false, ParsePrimary(toks, old(i), MAX_DEPTH - depth), r)
      decreases |toks| - i, 0
    {
      hide ParseExpr, Tokens;
      if IsAtom(toks[i]) {
        r := Some(Leaf(toks[i]));
        Advance();
        if BeginsLiteral(toks, i) {
          errored := true;
        }
      } else if toks[i].LParen? {
        Advance();
        r := Expression(0);
        Expect(RParen);
      } else {
        errored := true;
        Advance();
        r := None;
      }
    }
  }
}