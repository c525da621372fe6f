/** The rule-type context tracker: the transition that `emit` applies to its one
    scalar of state on every emitted token, and what follows for token streams. */
module RuleTracker {
  import opened Vocabulary

  /** The context held in `#currentRuleType`.
      Outside          = Token.INVALID_TYPE (outside any rule)
      Prequel          = #PREQUEL_CONSTRUCT (-10), in a grammar-level options/tokens/channels block
      OptionsConstruct = #OPTIONS_CONSTRUCT (-11), in an options block of a lexer rule
      LexerRule        = TOKEN_REF, in a rule whose name is a token reference
      ParserRule       = RULE_REF, in a rule whose name is a rule reference
      ActionHeader     = AT, in an `@name {...}` action declaration */
  datatype RuleType = Outside | Prequel | OptionsConstruct | LexerRule | ParserRule | ActionHeader

  /** The context adopted from a classified identifier type (`#currentRuleType = this._type`). */
  function RuleOf(t: TokenType): RuleType
    requires t == TokenRef || t == RuleRef
  {
    if t == TokenRef then LexerRule else ParserRule
  }

  /** What one `emit` produces: the new context and the token's final type. */
  datatype Emission = Emission(rule: RuleType, tokenType: TokenType)

  /** The type a lexeme is emitted with: identifiers are reclassified, nothing else is. */
  function EmittedType(l: Lexeme): (t: TokenType)
    ensures t != Id
    ensures l.kind != Id ==> t == l.kind
    ensures l.kind == Id ==> (t == TokenRef <==> l.first == ToUpper(l.first))
    ensures l.kind == Id ==> (t == RuleRef <==> l.first != ToUpper(l.first))
  {
    if l.kind == Id then ClassifyId(l.first) else l.kind
  }

  /** The types a stream is emitted with, lexeme by lexeme, whatever the context. */
  function EmittedTypes(ls: seq<Lexeme>): (ts: seq<TokenType>)
    ensures |ts| == |ls|
  {
    if ls == [] then [] else [EmittedType(ls[0])] + EmittedTypes(ls[1..])
  }

  /** Emitting a stream rewrites exactly its identifiers, each by its own first
      character, and passes every other type through. */
  lemma {:induction false} EmittedTypesAt(ls: seq<Lexeme>, i: nat)
    requires i < |ls|
    ensures ls[i].kind == Id ==> EmittedTypes(ls)[i] == ClassifyId(ls[i].first)
    ensures ls[i].kind != Id ==> EmittedTypes(ls)[i] == ls[i].kind
    ensures EmittedTypes(ls)[i] != Id
    decreases i
  {
    if i > 0 {
      EmittedTypesAt(ls[1..], i - 1);
    }
  }

  /** One `emit`: the first-match-wins chain over the provisional type and the context. */
  function Step(ctx: RuleType, t: TokenType, first: char): (r: Emission)
    ensures r.tokenType == EmittedType(Lexeme(t, first))
    ensures t == Id ==> r.rule == if ctx == Outside then RuleOf(ClassifyId(first)) else ctx
    ensures t !in {Options, Tokens, Channels, RBrace, At, Semi, EndAction, Id} ==> r.rule == ctx
  {
    if (t == Options || t == Tokens || t == Channels) && ctx == Outside then
      Emission(Prequel, t)
    else if t == Options && ctx == LexerRule then
      Emission(OptionsConstruct, t)
    else if t == RBrace && ctx == Prequel then
      Emission(Outside, t)
    else if t == RBrace && ctx == OptionsConstruct then
      Emission(LexerRule, t)
    else if t == At && ctx == Outside then
      Emission(ActionHeader, t)
    else if t == Semi && ctx == OptionsConstruct then
      Emission(ctx, t)
    else if t == EndAction && ctx == ActionHeader then
      Emission(Outside, t)
    else if t == Id then
      var k := ClassifyId(first);
      Emission(if ctx == Outside then RuleOf(k) else ctx, k)
    else if t == Semi then
      Emission(Outside, t)
    else
      Emission(ctx, t)
  }

  /** The same transition read context by context: in each context, the only token
      types that move it and where they lead. Every other type leaves it alone. */
  function NextByContext(ctx: RuleType, t: TokenType, first: char): RuleType {
    match ctx
    case Outside =>
      if t == Options || t == Tokens || t == Channels then Prequel
      else if t == At then ActionHeader
      else if t == Id then RuleOf(ClassifyId(first))
      else Outside
    case Prequel => if t == RBrace || t == Semi then Outside else Prequel
    case OptionsConstruct => if t == RBrace then LexerRule else OptionsConstruct
    case LexerRule =>
      if t == Options then OptionsConstruct
      else if t == Semi then Outside
      else LexerRule
    case ParserRule => if t == Semi then Outside else ParserRule
    case ActionHeader => if t == EndAction || t == Semi then Outside else ActionHeader
  }

  /** The priority chain and the per-context table agree on every input. */
  lemma StepMatchesTable(ctx: RuleType, t: TokenType, first: char)
    ensures Step(ctx, t, first).rule == NextByContext(ctx, t, first)
  {
  }

  /** Block bracketing and rule ends, one token at a time. */
  lemma StepBrackets(ctx: RuleType, first: char)
    ensures ctx == Outside ==>
      Step(ctx, Options, first).rule == Prequel && Step(ctx, Tokens, first).rule == Prequel
      && Step(ctx, Channels, first).rule == Prequel
    ensures Step(Prequel, RBrace, first).rule == Outside
    ensures Step(LexerRule, Options, first).rule == OptionsConstruct
    ensures Step(OptionsConstruct, RBrace, first).rule == LexerRule
    ensures Step(OptionsConstruct, Semi, first).rule == OptionsConstruct
    ensures Step(Outside, At, first).rule == ActionHeader
    ensures Step(ActionHeader, EndAction, first).rule == Outside
    ensures ctx != OptionsConstruct ==> Step(ctx, Semi, first).rule == Outside
  {
  }

  /** The context after `emit` has been applied to each lexeme of a stream in order,
      starting from context `ctx`. (The emitted types do not depend on the context:
      they are `EmittedTypes`.) */
  function Run(ctx: RuleType, ls: seq<Lexeme>): RuleType
    decreases |ls|
  {
    if ls == [] then ctx else Run(Step(ctx, ls[0].kind, ls[0].first).rule, ls[1..])
  }

  /** The context after each lexeme of the stream. */
  function Visited(ctx: RuleType, ls: seq<Lexeme>): (cs: seq<RuleType>)
    ensures |cs| == |ls|
    decreases |ls|
  {
    if ls == [] then []
    else
      var next := Step(ctx, ls[0].kind, ls[0].first).rule;
      [next] + Visited(next, ls[1..])
  }

  /** The last context visited is the one the stream ends in. */
  lemma {:induction false} VisitedEndsInRun(ctx: RuleType, ls: seq<Lexeme>)
    requires ls != []
    ensures Visited(ctx, ls)[|ls| - 1] == Run(ctx, ls)
    decreases |ls|
  {
    if |ls| > 1 {
      VisitedEndsInRun(Step(ctx, ls[0].kind, ls[0].first).rule, ls[1..]);
    }
  }

  /** Emitting a concatenation is emitting the first part, then the second from
      where the first left off. */
  lemma {:induction false} RunAppend(ctx: RuleType, a: seq<Lexeme>, b: seq<Lexeme>)
    ensures Run(ctx, a + b) == Run(Run(ctx, a), b)
    decreases |a|
  {
    if a == [] {
      assert a + b == b;
    } else {
      assert (a + b)[0] == a[0];
      assert (a + b)[1..] == a[1..] + b;
      RunAppend(Step(ctx, a[0].kind, a[0].first).rule, a[1..], b);
    }
  }

  /** The contexts visited by a concatenation are those of each part in turn. */
  lemma {:induction false} VisitedAppend(ctx: RuleType, a: seq<Lexeme>, b: seq<Lexeme>)
    ensures Visited(ctx, a + b) == Visited(ctx, a) + Visited(Run(ctx, a), b)
    decreases |a|
  {
    if a == [] {
      assert a + b == b;
    } else {
      assert (a + b)[0] == a[0];
      assert (a + b)[1..] == a[1..] + b;
      VisitedAppend(Step(ctx, a[0].kind, a[0].first).rule, a[1..], b);
    }
  }

  /** Emitting a stream and then one more lexeme. */
  lemma RunSnoc(ctx: RuleType, ls: seq<Lexeme>, l: Lexeme)
    ensures Run(ctx, ls + [l]) == Step(Run(ctx, ls), l.kind, l.first).rule
  {
    RunAppend(ctx, ls, [l]);
  }

  /** A stream whose every lexeme leaves `ctx` alone keeps the context at `ctx` throughout. */
  lemma {:induction false} RunStays(ctx: RuleType, ls: seq<Lexeme>)
    requires forall i :: 0 <= i < |ls| ==> Step(ctx, ls[i].kind, ls[i].first).rule == ctx
    ensures Run(ctx, ls) == ctx
    ensures forall i :: 0 <= i < |ls| ==> Visited(ctx, ls)[i] == ctx
    decreases |ls|
  {
    if ls != [] {
      RunStays(ctx, ls[1..]);
      var cs := Visited(ctx, ls);
      forall i | 0 <= i < |ls| ensures cs[i] == ctx {
        if i > 0 {
          assert cs[i] == Visited(ctx, ls[1..])[i - 1];
        }
      }
    }
  }

  predicate Avoids(ls: seq<Lexeme>, t: TokenType) {
    forall i :: 0 <= i < |ls| ==> ls[i].kind != t
  }

  /** Inside a lexer rule's options block everything but a closing brace, semicolons
      included, keeps the context at OptionsConstruct. */
  lemma OptionsBodyStays(body: seq<Lexeme>)
    requires Avoids(body, RBrace)
    ensures Run(OptionsConstruct, body) == OptionsConstruct
    ensures forall i :: 0 <= i < |body| ==> Visited(OptionsConstruct, body)[i] == OptionsConstruct
  {
    RunStays(OptionsConstruct, body);
  }

  /** `options { ... }` inside a lexer rule resumes the lexer rule when it closes. */
  lemma RuleOptionsRoundTrip(open: char, body: seq<Lexeme>, close: char)
    requires Avoids(body, RBrace)
    ensures Run(LexerRule, [Lexeme(Options, open)] + body + [Lexeme(RBrace, close)]) == LexerRule
  {
    OptionsBodyStays(body);
    RunAppend(LexerRule, [Lexeme(Options, open)], body);
    RunSnoc(LexerRule, [Lexeme(Options, open)] + body, Lexeme(RBrace, close));
  }

  /** Inside a rule, only a semicolon (and, in a lexer rule, `options`) moves the context. */
  lemma RuleBodyStays(ctx: RuleType, body: seq<Lexeme>)
    requires ctx == LexerRule || ctx == ParserRule
    requires Avoids(body, Semi)
    requires ctx == LexerRule ==> Avoids(body, Options)
    ensures Run(ctx, body) == ctx
    ensures forall i :: 0 <= i < |body| ==> Visited(ctx, body)[i] == ctx
  {
    RunStays(ctx, body);
  }

  /** A rule definition: its name fixes the context for the whole body, whatever the
      body holds short of `;` (and, in a lexer rule, `options`), and the closing `;`
      returns to Outside. */
  lemma RuleDefinition(name: char, body: seq<Lexeme>, end: char)
    requires Avoids(body, Semi)
    requires ClassifyId(name) == TokenRef ==> Avoids(body, Options)
    ensures Run(Outside, [Lexeme(Id, name)] + body) == RuleOf(ClassifyId(name))
    ensures Run(Outside, [Lexeme(Id, name)] + body + [Lexeme(Semi, end)]) == Outside
  {
    RuleBodyStays(RuleOf(ClassifyId(name)), body);
    RunAppend(Outside, [Lexeme(Id, name)], body);
    RunSnoc(Outside, [Lexeme(Id, name)] + body, Lexeme(Semi, end));
  }

  /** A lexer rule with an options block, `A options { k = v ; } : body ;`: the
      block's semicolons stay inside the options construct, its brace returns to the
      lexer rule, and only the rule's own `;` returns to Outside. */
  lemma LexerRuleWithOptions(name: char, open: char, opts: seq<Lexeme>, close: char,
                             body: seq<Lexeme>, end: char)
    requires ClassifyId(name) == TokenRef
    requires Avoids(opts, RBrace)
    requires Avoids(body, Semi) && Avoids(body, Options)
    ensures Run(Outside, [Lexeme(Id, name)] + ([Lexeme(Options, open)] + opts + [Lexeme(RBrace, close)])
                         + body) == LexerRule
    ensures Run(Outside, [Lexeme(Id, name)] + ([Lexeme(Options, open)] + opts + [Lexeme(RBrace, close)])
                         + body + [Lexeme(Semi, end)]) == Outside
  {
    var block := [Lexeme(Options, open)] + opts + [Lexeme(RBrace, close)];
    assert Run(Outside, [Lexeme(Id, name)]) == LexerRule;
    RuleOptionsRoundTrip(open, opts, close);
    RuleBodyStays(LexerRule, body);
    RunAppend(Outside, [Lexeme(Id, name)], block);
    RunAppend(Outside, [Lexeme(Id, name)] + block, body);
    RunSnoc(Outside, [Lexeme(Id, name)] + block + body, Lexeme(Semi, end));
  }

  /** A grammar-level block closes in Outside from wherever its body leaves the
      context, as long as that is Prequel or Outside. */
  lemma PrequelClose(kind: TokenType, open: char, body: seq<Lexeme>, close: char)
    requires kind == Options || kind == Tokens || kind == Channels
    requires Run(Prequel, body) == Prequel || Run(Prequel, body) == Outside
    ensures Run(Outside, [Lexeme(kind, open)] + body) == Run(Prequel, body)
    ensures Run(Outside, [Lexeme(kind, open)] + body + [Lexeme(RBrace, close)]) == Outside
  {
    RunAppend(Outside, [Lexeme(kind, open)], body);
    RunSnoc(Outside, [Lexeme(kind, open)] + body, Lexeme(RBrace, close));
  }

  /** A grammar-level `tokens {...}` / `channels {...}` / `options {...}` block with no
      semicolon inside stays in Prequel until its brace closes it, back to Outside. */
  lemma PrequelBlock(kind: TokenType, open: char, body: seq<Lexeme>, close: char)
    requires kind == Options || kind == Tokens || kind == Channels
    requires Avoids(body, RBrace) && Avoids(body, Semi)
    ensures Run(Outside, [Lexeme(kind, open)] + body) == Prequel
    ensures Run(Outside, [Lexeme(kind, open)] + body + [Lexeme(RBrace, close)]) == Outside
  {
    RunStays(Prequel, body);
    PrequelClose(kind, open, body, close);
  }

  /** The lexemes of a stream that are none of the types `emit` tests for. */
  predicate Plain(ls: seq<Lexeme>) {
    forall i :: 0 <= i < |ls| ==> ls[i].kind !in {Options, Tokens, Channels, RBrace, At, Semi, EndAction}
  }

  /** A `key = value ;` entry: plain lexemes closed by a semicolon. */
  predicate Entry(e: seq<Lexeme>) {
    |e| > 0 && e[|e| - 1].kind == Semi && Plain(e[..|e| - 1])
  }

  function Concat(es: seq<seq<Lexeme>>): seq<Lexeme> {
    if es == [] then [] else es[0] + Concat(es[1..])
  }

  /** From Outside, plain lexemes lead only to Outside or to a rule context. */
  lemma {:induction false} PlainFromOutside(ls: seq<Lexeme>)
    requires Plain(ls)
    ensures Run(Outside, ls) in {Outside, LexerRule, ParserRule}
    decreases |ls|
  {
    if ls != [] {
      var s := Step(Outside, ls[0].kind, ls[0].first).rule;
      assert Plain(ls[1..]);
      if s == Outside {
        PlainFromOutside(ls[1..]);
      } else {
        RunStays(s, ls[1..]);
      }
    }
  }

  /** Semicolon-terminated entries started in Outside or Prequel always end in Outside:
      the first `;` of a grammar-level options block already leaves Prequel. */
  lemma {:induction false} EntriesEndOutside(ctx: RuleType, es: seq<seq<Lexeme>>)
    requires ctx == Outside || ctx == Prequel
    requires forall j :: 0 <= j < |es| ==> Entry(es[j])
    ensures Run(ctx, Concat(es)) == if es == [] then ctx else Outside
    decreases |es|
  {
    if es != [] {
      var e := es[0];
      var body := e[..|e| - 1];
      assert e == body + [e[|e| - 1]];
      if ctx == Prequel {
        RunStays(Prequel, body);
      } else {
        PlainFromOutside(body);
      }
      RunSnoc(ctx, body, e[|e| - 1]);
      RunAppend(ctx, e, Concat(es[1..]));
      EntriesEndOutside(Outside, es[1..]);
    }
  }

  /** A grammar-level `options { k = v; ... }` block ends in Outside, although its
      entries' semicolons leave Prequel before the closing brace. */
  lemma GrammarOptionsBlock(open: char, es: seq<seq<Lexeme>>, close: char)
    requires forall j :: 0 <= j < |es| ==> Entry(es[j])
    ensures es != [] ==> Run(Outside, [Lexeme(Options, open)] + Concat(es)) == Outside
    ensures Run(Outside, [Lexeme(Options, open)] + Concat(es) + [Lexeme(RBrace, close)]) == Outside
  {
    EntriesEndOutside(Prequel, es);
    PrequelClose(Options, open, Concat(es), close);
  }

  /** `@name { ... }`: the action header lasts until END_ACTION, then Outside again. */
  lemma ActionHeaderBlock(at: char, body: seq<Lexeme>, end: char)
    requires Avoids(body, EndAction) && Avoids(body, Semi)
    ensures Run(Outside, [Lexeme(At, at)] + body) == ActionHeader
    ensures Run(Outside, [Lexeme(At, at)] + body + [Lexeme(EndAction, end)]) == Outside
  {
    RunStays(ActionHeader, body);
    RunAppend(Outside, [Lexeme(At, at)], body);
    RunSnoc(Outside, [Lexeme(At, at)] + body, Lexeme(EndAction, end));
  }

  /** A parser rule's `options { k = v ; }` block: its `;` is taken for the end of the
      rule, so the context is already Outside after the block, and the next token
      reference starts a lexer-rule context inside what is still the parser rule. */
  lemma ParserRuleOptionsSemicolon(name: char, open: char, entry: seq<Lexeme>, semi: char,
                                   close: char, colon: int, token: char)
    requires 'a' <= name <= 'z' && 'A' <= token <= 'Z'
    requires Avoids(entry, Semi)
    ensures Run(Outside, [Lexeme(Id, name), Lexeme(Options, open)] + entry) == ParserRule
    ensures Run(Outside, [Lexeme(Id, name), Lexeme(Options, open)] + entry + [Lexeme(Semi, semi)])
         == Outside
    ensures Run(Outside, [Lexeme(Id, name), Lexeme(Options, open)] + entry
                + [Lexeme(Semi, semi), Lexeme(RBrace, close), Lexeme(Other(colon), ':'), Lexeme(Id, token)])
         == LexerRule
  {
    var body := [Lexeme(Options, open)] + entry;
    var head := [Lexeme(Id, name), Lexeme(Options, open)] + entry;
    assert head == [Lexeme(Id, name)] + body;
    RuleBodyStays(ParserRule, body);
    RunAppend(Outside, [Lexeme(Id, name)], body);
    var l0, l1, l2, l3 := Lexeme(Semi, semi), Lexeme(RBrace, close), Lexeme(Other(colon), ':'), Lexeme(Id, token);
    SemicolonThenToken(semi, close, colon, token);
    RunAppend(Outside, head, [l0]);
    RunAppend(Outside, head, [l0, l1, l2, l3]);
  }

  /** `; } : T` from inside a parser rule: the `;` leaves the rule, the brace and the
      colon are inert outside, and `T` opens a lexer rule. */
  lemma SemicolonThenToken(semi: char, close: char, colon: int, token: char)
    requires 'A' <= token <= 'Z'
    ensures Run(ParserRule, [Lexeme(Semi, semi)]) == Outside
    ensures Run(ParserRule, [Lexeme(Semi, semi), Lexeme(RBrace, close), Lexeme(Other(colon), ':'),
                             Lexeme(Id, token)]) == LexerRule
  {
    var l0, l1, l2, l3 := Lexeme(Semi, semi), Lexeme(RBrace, close), Lexeme(Other(colon), ':'), Lexeme(Id, token);
    assert [l0][1..] == [];
    assert [l3][1..] == [];
    assert Run(Outside, [l3]) == LexerRule;
    assert [l2, l3][1..] == [l3];
    assert Run(Outside, [l2, l3]) == LexerRule;
    assert [l1, l2, l3][1..] == [l2, l3];
    assert Run(Outside, [l1, l2, l3]) == LexerRule;
    assert [l0, l1, l2, l3][1..] == [l1, l2, l3];
  }

  /** The lexemes of `grammar T;` (the keyword's type is whatever code the generated
      lexer gives it). */
  function GrammarHeader(grammarKw: int): seq<Lexeme> {
    [Lexeme(Other(grammarKw), 'g'), Lexeme(Id, 'T'), Lexeme(Semi, ';')]
  }

  /** The lexemes of `r : 'a' ;` (colon and literal types likewise). */
  function ParserRuleR(colon: int, literal: int): seq<Lexeme> {
    [Lexeme(Id, 'r'), Lexeme(Other(colon), ':'), Lexeme(Other(literal), '\''), Lexeme(Semi, ';')]
  }

  /** The lexemes of `grammar T; r : 'a' ;`. */
  function GrammarDeclaration(grammarKw: int, colon: int, literal: int): seq<Lexeme> {
    GrammarHeader(grammarKw) + ParserRuleR(colon, literal)
  }

  /** `grammar T;`: the keyword is inert, `T` opens a lexer rule that `;` closes at once. */
  lemma GrammarHeaderContexts(grammarKw: int)
    ensures Visited(Outside, GrammarHeader(grammarKw)) == [Outside, LexerRule, Outside]
    ensures Run(Outside, GrammarHeader(grammarKw)) == Outside
  {
    var l0, l1, l2 := Lexeme(Other(grammarKw), 'g'), Lexeme(Id, 'T'), Lexeme(Semi, ';');
    assert [l2][1..] == [];
    assert Visited(LexerRule, [l2]) == [Outside] && Run(LexerRule, [l2]) == Outside;
    assert [l1, l2][1..] == [l2];
    assert Visited(Outside, [l1, l2]) == [LexerRule, Outside] && Run(Outside, [l1, l2]) == Outside;
    assert [l0, l1, l2][1..] == [l1, l2];
  }

  /** `r : 'a' ;`: `r` opens a parser rule that lasts until the `;`. */
  lemma ParserRuleRContexts(colon: int, literal: int)
    ensures Visited(Outside, ParserRuleR(colon, literal)) == [ParserRule, ParserRule, ParserRule, Outside]
    ensures Run(Outside, ParserRuleR(colon, literal)) == Outside
  {
    var l3, l4, l5, l6 := Lexeme(Id, 'r'), Lexeme(Other(colon), ':'), Lexeme(Other(literal), '\''),
                          Lexeme(Semi, ';');
    assert [l6][1..] == [];
    assert Visited(ParserRule, [l6]) == [Outside] && Run(ParserRule, [l6]) == Outside;
    assert [l5, l6][1..] == [l6];
    assert Visited(ParserRule, [l5, l6]) == [ParserRule, Outside] && Run(ParserRule, [l5, l6]) == Outside;
    assert [l4, l5, l6][1..] == [l5, l6];
    assert Visited(ParserRule, [l4, l5, l6]) == [ParserRule, ParserRule, Outside];
    assert Run(ParserRule, [l4, l5, l6]) == Outside;
    assert [l3, l4, l5, l6][1..] == [l4, l5, l6];
  }

  /** `grammar T; r : 'a' ;`: `T` opens a lexer rule that the first `;` closes at once,
      `r` opens a parser rule that the last `;` closes. */
  lemma GrammarDeclarationContexts(grammarKw: int, colon: int, literal: int)
    ensures Visited(Outside, GrammarDeclaration(grammarKw, colon, literal))
         == [Outside, LexerRule, Outside, ParserRule, ParserRule, ParserRule, Outside]
    ensures Run(Outside, GrammarDeclaration(grammarKw, colon, literal)) == Outside
  {
    GrammarHeaderContexts(grammarKw);
    ParserRuleRContexts(colon, literal);
    VisitedAppend(Outside, GrammarHeader(grammarKw), ParserRuleR(colon, literal));
    RunAppend(Outside, GrammarHeader(grammarKw), ParserRuleR(colon, literal));
  }

  /** `grammar T; r : 'a' ;`: `T` is emitted as a token reference, `r` as a rule
      reference, everything else as scanned. */
  lemma GrammarDeclarationTypes(grammarKw: int, colon: int, literal: int)
    ensures EmittedTypes(GrammarDeclaration(grammarKw, colon, literal))
         == [Other(grammarKw), TokenRef, Semi, RuleRef, Other(colon), Other(literal), Semi]
  {
    var ls := GrammarDeclaration(grammarKw, colon, literal);
    var want := [Other(grammarKw), TokenRef, Semi, RuleRef, Other(colon), Other(literal), Semi];
    forall i | 0 <= i < |ls| ensures EmittedTypes(ls)[i] == want[i] {
      EmittedTypesAt(ls, i);
    }
  }
}
