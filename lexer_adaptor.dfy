/** The adaptor object: the base lexer's state it touches, its own rule-context
    field, and the four hooks the generated lexer calls, each proved against the
    pure transition it performs (`RuleTracker.Step`, `ModeStack.BeginArgument`,
    `ModeStack.CloseArgument`, `ModeStack.CloseAction`). */
module Adaptor {
  import opened Vocabulary
  import opened RuleTracker
  import opened ModeStack

  class LexerAdaptor {
    /** Where the lexer is in the grammar text (`#currentRuleType`). */
    var currentRuleType: RuleType
    /** Cleared by the constructor and by `Reset`; no hook reads or sets it. */
    var insideOptionsBlock: bool

    /** The base lexer's type of the token being built (`_type`). */
    var tokenType: TokenType
    /** The base lexer's current mode (`_mode`). */
    var mode: Mode
    /** The base lexer's saved modes, most recent last (`_modeStack`). */
    var modeStack: seq<Mode>
    /** Whether the base lexer was asked to keep accumulating the current token (`more()`). */
    var moreRequested: bool

    /** The mode stack as a value. */
    function Modes(): (s: ModeState)
      reads this
      ensures s.mode == mode && s.saved == modeStack
    {
      ModeState(mode, modeStack)
    }

    /** A fresh adaptor is outside any rule, outside any options block, and the base
        lexer starts in the default mode with nothing saved. */
    constructor ()
      ensures currentRuleType == Outside && !insideOptionsBlock
      ensures tokenType == InvalidType && !moreRequested
      ensures Modes() == ModeState(Default, [])
    {
      currentRuleType := Outside;
      insideOptionsBlock := false;
      tokenType := InvalidType;
      mode := Default;
      modeStack := [];
      moreRequested := false;
    }

    /** `reset`: back outside any rule, then the base lexer's own reset, which
        restores the start mode and clears the token being built. */
    method Reset()
      modifies this
      ensures currentRuleType == Outside && !insideOptionsBlock
      ensures tokenType == InvalidType && !moreRequested
      ensures Modes() == ModeState(Default, [])
    {
      currentRuleType := Outside;
      insideOptionsBlock := false;
      BaseReset();
    }

    /** The part of the base lexer's `reset` that the adaptor relies on. */
    method BaseReset()
      modifies this`tokenType, this`mode, this`modeStack, this`moreRequested
      ensures tokenType == InvalidType && !moreRequested
      ensures Modes() == ModeState(Default, [])
    {
      tokenType := InvalidType;
      mode := Default;
      modeStack := [];
      moreRequested := false;
    }

    /** `emit`: update the rule context from the token about to be emitted, turn an
        identifier into a token or rule reference by its first character, and emit
        the token with its final type. Nothing else changes. */
    method Emit(first: char) returns (emitted: TokenType)
      modifies this`currentRuleType, this`tokenType
      ensures Emission(currentRuleType, tokenType) == Step(old(currentRuleType), old(tokenType), first)
      ensures emitted == tokenType
      ensures Modes() == old(Modes()) && moreRequested == old(moreRequested)
    {
      var t := tokenType;
      if (t == Options || t == Tokens || t == Channels) && currentRuleType == Outside {
        currentRuleType := Prequel;
      } else if t == Options && currentRuleType == LexerRule {
        currentRuleType := OptionsConstruct;
      } else if t == RBrace && currentRuleType == Prequel {
        currentRuleType := Outside;
      } else if t == RBrace && currentRuleType == OptionsConstruct {
        currentRuleType := LexerRule;
      } else if t == At && currentRuleType == Outside {
        currentRuleType := ActionHeader;
      } else if t == Semi && currentRuleType == OptionsConstruct {
        // a `;` between options of a rule-level options block changes nothing
      } else if t == EndAction && currentRuleType == ActionHeader {
        currentRuleType := Outside;
      } else if t == Id {
        if first == ToUpper(first) {
          tokenType := TokenRef;
        } else {
          tokenType := RuleRef;
        }
        if currentRuleType == Outside {
          currentRuleType := RuleOf(tokenType);
        }
      } else if t == Semi {
        currentRuleType := Outside;
      }
      emitted := tokenType;
    }

    /** The base lexer's `pushMode`. */
    method PushMode(m: Mode)
      modifies this`mode, this`modeStack
      ensures Modes() == Push(old(Modes()), m)
    {
      modeStack := modeStack + [mode];
      mode := m;
    }

    /** The base lexer's `popMode`; it returns the mode it restored. */
    method PopMode() returns (m: Mode)
      requires |modeStack| > 0
      modifies this`mode, this`modeStack
      ensures Modes() == Pop(old(Modes()))
      ensures m == mode
    {
      mode := modeStack[|modeStack| - 1];
      modeStack := modeStack[..|modeStack| - 1];
      m := mode;
    }

    /** `handleBeginArgument`: `[` opens a character set inside a lexer rule, and the
        set's text is kept as one token; anywhere else it opens an argument list. */
    method HandleBeginArgument()
      modifies this`mode, this`modeStack, this`moreRequested
      ensures currentRuleType == old(currentRuleType) && tokenType == old(tokenType)
      ensures Modes() == BeginArgument(currentRuleType, old(Modes()))
      ensures moreRequested == (old(moreRequested) || RequestsMore(currentRuleType))
    {
      if currentRuleType == LexerRule {
        PushMode(LexerCharSet);
        moreRequested := true;
      } else {
        PushMode(Argument);
      }
    }

    /** `handleEndArgument`: `]` leaves the argument region, and is argument content
        itself when that region was nested in another pushed mode. */
    method HandleEndArgument()
      requires |modeStack| > 0
      modifies this`mode, this`modeStack, this`tokenType
      ensures currentRuleType == old(currentRuleType) && moreRequested == old(moreRequested)
      ensures Closing(Modes(), tokenType) == CloseArgument(old(Modes()), old(tokenType))
    {
      var _ := PopMode();
      if |modeStack| > 0 {
        tokenType := ArgumentContent;
      }
    }

    /** `handleEndAction`: `}` leaves an action body, and is action content itself when
        it closes a body nested inside another action body. */
    method HandleEndAction()
      requires |modeStack| > 0
      modifies this`mode, this`modeStack, this`tokenType
      ensures currentRuleType == old(currentRuleType) && moreRequested == old(moreRequested)
      ensures Closing(Modes(), tokenType) == CloseAction(old(Modes()), old(tokenType))
    {
      var oldMode := mode;
      var newMode := PopMode();
      var isActionWithinAction := |modeStack| > 0 && newMode == TargetLanguageAction && oldMode == newMode;
      if isActionWithinAction {
        tokenType := ActionContent;
      }
    }
  }
}
