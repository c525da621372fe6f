/** The mode stack that the argument and action handlers push and pop. The stack
    itself belongs to the base lexer; it is modelled as the usual one: pushing
    saves the current mode, popping restores the last saved one. */
module ModeStack {
  import opened Vocabulary
  import opened RuleTracker

  /** The current mode and the saved ones, most recent last. */
  datatype ModeState = ModeState(mode: Mode, saved: seq<Mode>)

  /** The base lexer's `pushMode`. */
  function Push(s: ModeState, m: Mode): (r: ModeState)
    ensures r.mode == m && |r.saved| == |s.saved| + 1
    ensures r.saved[|s.saved|] == s.mode && r.saved[..|s.saved|] == s.saved
  {
    ModeState(m, s.saved + [s.mode])
  }

  /** The base lexer's `popMode`: the last saved mode becomes current. */
  function Pop(s: ModeState): (r: ModeState)
    requires |s.saved| > 0
    ensures |r.saved| == |s.saved| - 1
    ensures r.saved + [r.mode] == s.saved
  {
    ModeState(s.saved[|s.saved| - 1], s.saved[..|s.saved| - 1])
  }

  /** Pushing back the mode that popping left undoes the pop. */
  lemma PushPop(s: ModeState)
    requires |s.saved| > 0
    ensures Push(Pop(s), s.mode) == s
  {
    assert s.saved[..|s.saved| - 1] + [s.saved[|s.saved| - 1]] == s.saved;
  }

  /** Popping undoes pushing. */
  lemma PopPush(s: ModeState, m: Mode)
    ensures Pop(Push(s, m)) == s
  {
    assert (s.saved + [s.mode])[..|s.saved|] == s.saved;
  }

  /** The mode `handleBeginArgument` enters: a character set inside a lexer rule,
      an argument list anywhere else. */
  function ArgumentMode(ctx: RuleType): (m: Mode)
    ensures m == LexerCharSet <==> ctx == LexerRule
    ensures m == Argument <==> ctx != LexerRule
  {
    if ctx == LexerRule then LexerCharSet else Argument
  }

  /** `handleBeginArgument` on the mode stack. Whether it also calls `more()` is
      `RequestsMore`. */
  function BeginArgument(ctx: RuleType, s: ModeState): (r: ModeState)
    ensures r.saved == s.saved + [s.mode]
    ensures r.mode == LexerCharSet <==> ctx == LexerRule
    ensures r.mode == Argument <==> ctx != LexerRule
  {
    Push(s, ArgumentMode(ctx))
  }

  /** `handleBeginArgument` asks the lexer to keep accumulating the token exactly
      when it enters a character set. */
  predicate RequestsMore(ctx: RuleType)
    ensures RequestsMore(ctx) <==> ArgumentMode(ctx) == LexerCharSet
  {
    ctx == LexerRule
  }

  /** After a parser rule's `options { k = v ; }` block, a `[` following a token
      reference opens a character set, not the argument list a parser rule would
      give it: the block's `;` has already ended the rule context. */
  lemma ParserRuleOptionsCharSet(name: char, open: char, entry: seq<Lexeme>, semi: char,
                                 close: char, colon: int, token: char)
    requires 'a' <= name <= 'z' && 'A' <= token <= 'Z'
    requires Avoids(entry, Semi)
    ensures ArgumentMode(Run(Outside, [Lexeme(Id, name), Lexeme(Options, open)] + entry)) == Argument
    ensures ArgumentMode(Run(Outside, [Lexeme(Id, name), Lexeme(Options, open)] + entry
                + [Lexeme(Semi, semi), Lexeme(RBrace, close), Lexeme(Other(colon), ':'), Lexeme(Id, token)]))
         == LexerCharSet
  {
    ParserRuleOptionsSemicolon(name, open, entry, semi, close, colon, token);
  }

  /** The result of a closing handler: the mode state after the pop and the closing
      token's type. */
  datatype Closing = Closing(state: ModeState, tokenType: TokenType)

  /** `handleEndArgument`: pop, and mark the closing token as argument content when
      the region closed was nested in another pushed one. */
  function CloseArgument(s: ModeState, t: TokenType): (r: Closing)
    requires |s.saved| > 0
    ensures r.state == Pop(s)
    ensures r.tokenType == ArgumentContent <==> |s.saved| > 1 || t == ArgumentContent
    ensures r.tokenType != ArgumentContent ==> r.tokenType == t
  {
    var after := Pop(s);
    Closing(after, if |after.saved| > 0 then ArgumentContent else t)
  }

  /** `handleEndAction`: pop, and mark the closing token as action content when an
      action body closes back into an enclosing action body that is itself nested. */
  function CloseAction(s: ModeState, t: TokenType): (r: Closing)
    requires |s.saved| > 0
    ensures r.state == Pop(s)
    ensures r.tokenType != t ==> r.tokenType == ActionContent
    ensures t != ActionContent ==>
      (r.tokenType == ActionContent <==>
         |s.saved| > 1 && s.mode == TargetLanguageAction
         && s.saved[|s.saved| - 1] == TargetLanguageAction)
  {
    var oldMode := s.mode;
    var after := Pop(s);
    var newMode := after.mode;
    var isActionWithinAction := |after.saved| > 0 && newMode == TargetLanguageAction && oldMode == newMode;
    Closing(after, if isActionWithinAction then ActionContent else t)
  }

  /** Opening an argument region and closing it again restores the mode stack; the
      closing token is re-tagged exactly when the region sat inside a pushed mode. */
  lemma BeginEndArgument(ctx: RuleType, s: ModeState, t: TokenType)
    ensures CloseArgument(BeginArgument(ctx, s), t).state == s
    ensures CloseArgument(BeginArgument(ctx, s), t).tokenType
         == if |s.saved| > 0 then ArgumentContent else t
  {
    PopPush(s, ArgumentMode(ctx));
  }

  /** Opening an action body and closing it again restores the mode stack; the
      closing token is re-tagged exactly when the body was opened from inside a
      nested action body. */
  lemma BeginEndAction(s: ModeState, t: TokenType)
    ensures CloseAction(Push(s, TargetLanguageAction), t).state == s
    ensures CloseAction(Push(s, TargetLanguageAction), t).tokenType
         == if |s.saved| > 0 && s.mode == TargetLanguageAction then ActionContent else t
  {
    PopPush(s, TargetLanguageAction);
  }

  /** `d` regions of mode `m` opened one inside the other on top of `s`. */
  function Nest(s: ModeState, m: Mode, d: nat): (r: ModeState)
    ensures |r.saved| == |s.saved| + d
    ensures d > 0 ==> r.mode == m
  {
    if d == 0 then s else Push(Nest(s, m, d - 1), m)
  }

  /** The mode state after `n` pops in a row. */
  function PopTimes(s: ModeState, n: nat): (r: ModeState)
    requires n <= |s.saved|
    ensures |r.saved| == |s.saved| - n
    decreases n
  {
    if n == 0 then s else PopTimes(Pop(s), n - 1)
  }

  /** Popping as often as regions were opened returns to the state before the first. */
  lemma {:induction false} NestUnwinds(base: ModeState, m: Mode, d: nat)
    ensures PopTimes(Nest(base, m, d), d) == base
    decreases d
  {
    if d > 0 {
      var inner := Nest(base, m, d - 1);
      PopPush(inner, m);
      NestUnwinds(base, m, d - 1);
    }
  }

  /** `n` copies of `t` followed by `last`. */
  function RepeatThen(t: TokenType, n: nat, last: TokenType): (r: seq<TokenType>)
    ensures |r| == n + 1
  {
    if n == 0 then [last] else [t] + RepeatThen(t, n - 1, last)
  }

  /** The types `handleEndArgument` gives `n` closing tokens of type `t` in a row. */
  function ArgumentCloses(s: ModeState, n: nat, t: TokenType): (ts: seq<TokenType>)
    requires n <= |s.saved|
    ensures |ts| == n
    decreases n
  {
    if n == 0 then []
    else
      var c := CloseArgument(s, t);
      [c.tokenType] + ArgumentCloses(c.state, n - 1, t)
  }

  /** The types `handleEndAction` gives `n` closing tokens of type `t` in a row. */
  function ActionCloses(s: ModeState, n: nat, t: TokenType): (ts: seq<TokenType>)
    requires n <= |s.saved|
    ensures |ts| == n
    decreases n
  {
    if n == 0 then []
    else
      var c := CloseAction(s, t);
      [c.tokenType] + ActionCloses(c.state, n - 1, t)
  }

  /** Closing an argument region opened on top of `inner`: the state returns to
      `inner`, and the close is argument content when `inner` is itself nested. */
  lemma ArgumentClosesPush(inner: ModeState, n: nat, t: TokenType)
    requires n <= |inner.saved|
    ensures ArgumentCloses(Push(inner, Argument), n + 1, t)
         == [if |inner.saved| > 0 then ArgumentContent else t] + ArgumentCloses(inner, n, t)
  {
    PopPush(inner, Argument);
  }

  /** Closing an action body opened on top of `inner`: the state returns to `inner`,
      and the close is action content when `inner` is a nested action body. */
  lemma ActionClosesPush(inner: ModeState, n: nat, t: TokenType)
    requires n <= |inner.saved|
    ensures ActionCloses(Push(inner, TargetLanguageAction), n + 1, t)
         == [if |inner.saved| > 0 && inner.mode == TargetLanguageAction then ActionContent else t]
            + ActionCloses(inner, n, t)
  {
    PopPush(inner, TargetLanguageAction);
  }

  /** Closing `d` nested argument regions: every inner close is argument content, and
      the outermost one is too exactly when the outermost region itself sat inside a
      pushed mode. (The mode state they leave is `NestUnwinds`.) */
  lemma {:induction false} NestedArgumentsClose(base: ModeState, d: nat, t: TokenType)
    requires d > 0
    ensures ArgumentCloses(Nest(base, Argument, d), d, t)
         == RepeatThen(ArgumentContent, d - 1, if |base.saved| > 0 then ArgumentContent else t)
    decreases d
  {
    var inner := Nest(base, Argument, d - 1);
    ArgumentClosesPush(inner, d - 1, t);
    assert Nest(base, Argument, d) == Push(inner, Argument);
    if d == 1 {
      assert ArgumentCloses(inner, 0, t) == [];
    } else {
      NestedArgumentsClose(base, d - 1, t);
    }
  }

  /** Closing `d` nested action bodies: every inner close is action content, and the
      outermost one is exactly when it closes back into a nested action body. (The
      mode state they leave is `NestUnwinds`.) */
  lemma {:induction false} NestedActionsClose(base: ModeState, d: nat, t: TokenType)
    requires d > 0
    ensures ActionCloses(Nest(base, TargetLanguageAction, d), d, t)
         == RepeatThen(ActionContent, d - 1,
           if |base.saved| > 0 && base.mode == TargetLanguageAction then ActionContent else t)
    decreases d
  {
    var inner := Nest(base, TargetLanguageAction, d - 1);
    ActionClosesPush(inner, d - 1, t);
    assert Nest(base, TargetLanguageAction, d) == Push(inner, TargetLanguageAction);
    if d == 1 {
      assert ActionCloses(inner, 0, t) == [];
    } else {
      NestedActionsClose(base, d - 1, t);
    }
  }

  /** From the lexer's start state, `d` nested action bodies unwind back to the
      default mode with an empty stack; only the outermost close keeps its type. */
  lemma ActionsUnwindToDefault(d: nat, t: TokenType)
    requires d > 0
    ensures PopTimes(Nest(ModeState(Default, []), TargetLanguageAction, d), d) == ModeState(Default, [])
    ensures ActionCloses(Nest(ModeState(Default, []), TargetLanguageAction, d), d, t)
         == RepeatThen(ActionContent, d - 1, t)
  {
    NestUnwinds(ModeState(Default, []), TargetLanguageAction, d);
    NestedActionsClose(ModeState(Default, []), d, t);
  }

  /** Likewise for nested argument lists opened in a parser rule. */
  lemma ArgumentsUnwindToDefault(d: nat, t: TokenType)
    requires d > 0
    ensures PopTimes(Nest(ModeState(Default, []), Argument, d), d) == ModeState(Default, [])
    ensures ArgumentCloses(Nest(ModeState(Default, []), Argument, d), d, t)
         == RepeatThen(ArgumentContent, d - 1, t)
  {
    NestUnwinds(ModeState(Default, []), Argument, d);
    NestedArgumentsClose(ModeState(Default, []), d, t);
  }
}
