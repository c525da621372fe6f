# LexerAdaptor — a Dafny model

`LexerAdaptor` is the hand-written base class under the generated ANTLR v4 grammar
lexer. It makes that lexer context-sensitive in three ways:

- **Rule-type tracking.** On every emitted token, `emit` updates one scalar, the
  rule-type context, through a first-match-wins chain. The context says whether the
  lexer is:
  - outside any rule (`Token.INVALID_TYPE`);
  - in a grammar-level `options`/`tokens`/`channels` block (the prequel sentinel, -10);
  - in a lexer rule's `options` block (the options sentinel, -11);
  - in a lexer rule (`TOKEN_REF`) or a parser rule (`RULE_REF`);
  - in an `@name { ... }` action header (`AT`).

  The same chain turns every `ID` token into a token reference or a rule reference
  by the case of its first character.
- **Argument versus character set.** `handleBeginArgument` uses the context to
  decide what a `[` opens. Inside a lexer rule it opens a character set, whose text
  is kept as one token. Anywhere else it opens an argument list.
- **Nested closing.** `handleEndArgument` and `handleEndAction` pop the lexer's mode
  stack. A `]` or `}` that only closes back into an enclosing region is re-typed as
  argument or action content.

The model has four modules, one per concern:

- `Vocabulary` (vocabulary.dfy) holds the token types, the modes, and the
  identifier classifier.
- `RuleTracker` (rule_tracker.dfy) holds:
  - the pure transition `Step` that `emit` performs;
  - an independent per-context reference table;
  - `Run` and `Visited`, which give the context over a whole token stream;
  - lemmas about the constructs of the grammar language: blocks, rules, action
    headers, and the `grammar T;` example of the source's own comment.
- `ModeStack` (mode_stack.dfy) holds:
  - the mode stack as a value;
  - the three handlers as pure functions on it;
  - lemmas on opening and closing regions, nested to any depth.
- `Adaptor` (lexer_adaptor.dfy) holds the class `LexerAdaptor`. It has the
  adaptor's own fields and the base-lexer fields it reads and writes. `Emit`,
  `Reset` and the three handlers are written statement by statement after the
  source; `PushMode`, `PopMode` and `BaseReset` stand for the base lexer's
  behaviour as assumed under "Left out". Each method is proved to perform the
  corresponding pure transition and to change nothing else.

One consequence of the chain is proved as `ParserRuleOptionsSemicolon`. The `;`
of an `options { k = v ; }` block inside a parser rule is taken for the end of the
rule. After the block, a token reference therefore opens a lexer-rule context, and
a `[` after it opens a character set (`ParserRuleOptionsCharSet`). At grammar level
the same early `;` is harmless, because the block still ends outside
(`GrammarOptionsBlock`).

The context is a six-case datatype, so "every `emit` keeps the context among the
six values" holds by typing. The numeric sentinels are documented on `RuleType`.

## Model

| member | source | states |
|---|---|---|
| Vocabulary.ClassifyId | src/parser/LexerAdaptor.ts:72-79 | an identifier is a token reference exactly when its first character equals its upper-case form, and a rule reference otherwise, which for the modelled upper-casing means exactly when it starts with 'a'..'z'; the result is always one of the two |
| Vocabulary.ToUpper | src/parser/LexerAdaptor.ts:75 | ASCII-only upper-casing of a first character: 'a'..'z' map to 'A'..'Z' (32 code points lower), every other character is left unchanged |
| RuleTracker.Step | src/parser/LexerAdaptor.ts:49-88 | one `emit`: the emitted type is the identifier classification for `ID` and the unchanged type otherwise; an `ID` makes the context the rule kind of its classification when outside a rule and leaves it alone inside one; a type that none of the branches tests leaves the context unchanged |
| RuleTracker.StepMatchesTable | src/parser/LexerAdaptor.ts:49-86 | the first-match chain agrees on every input with a table that lists, context by context, the only token types that move it and where to |
| RuleTracker.StepBrackets | src/parser/LexerAdaptor.ts:50-71 | OPTIONS/TOKENS/CHANNELS enter the prequel from outside and RBRACE leaves it; OPTIONS in a lexer rule enters the options construct, RBRACE returns to the lexer rule and SEMI stays; AT enters the action header and END_ACTION leaves it; SEMI in every context but the options construct returns outside |
| RuleTracker.EmittedType | src/parser/LexerAdaptor.ts:72-79 | the type one token is emitted with is never `ID`: an `ID` becomes TOKEN_REF iff its first character equals its upper-case form and RULE_REF iff it does not; every other type is emitted unchanged |
| RuleTracker.EmittedTypesAt | src/parser/LexerAdaptor.ts:72-79 | over a stream, emit rewrites exactly the `ID` tokens, each by its own first character, and passes every other type through; no emitted token is `ID` |
| RuleTracker.VisitedEndsInRun | src/parser/LexerAdaptor.ts:49-86 | the last context visited over a non-empty stream is the one the stream ends in |
| RuleTracker.RunAppend | src/parser/LexerAdaptor.ts:49-86 | emitting a concatenation ends where emitting the second part from the end of the first ends |
| RuleTracker.VisitedAppend | src/parser/LexerAdaptor.ts:49-86 | the contexts visited over a concatenation are those of the first part followed by those of the second, started where the first ended |
| RuleTracker.RunSnoc | src/parser/LexerAdaptor.ts:49-86 | emitting one more token applies one step to the context the stream ended in |
| RuleTracker.RunStays | src/parser/LexerAdaptor.ts:49-86 | a stream whose every token leaves a context alone keeps that context throughout and at the end |
| RuleTracker.OptionsBodyStays | src/parser/LexerAdaptor.ts:55-69 | inside a lexer rule's options block every token but RBRACE, semicolons included, keeps the options construct |
| RuleTracker.RuleOptionsRoundTrip | src/parser/LexerAdaptor.ts:55-69 | `options { ... }` inside a lexer rule returns to the lexer rule when it closes |
| RuleTracker.RuleBodyStays | src/parser/LexerAdaptor.ts:55-85 | inside a rule, a body without `;` keeps the rule context throughout, provided in a lexer rule it also has no `options` |
| RuleTracker.RuleDefinition | src/parser/LexerAdaptor.ts:55-85 | a rule's name fixes the context (lexer or parser rule by its first character) for the whole body short of `;` (and of `options` in a lexer rule), and the terminating `;` returns outside |
| RuleTracker.LexerRuleWithOptions | src/parser/LexerAdaptor.ts:55-85 | `A options { k = v ; } : body ;` is in the lexer-rule context after the body, whatever semicolons the options block holds, and the rule's own `;` returns outside |
| RuleTracker.ParserRuleOptionsSemicolon | src/parser/LexerAdaptor.ts:50-85 | in `r options { k = v ; } : T`, `options` leaves the parser-rule context alone, the block's `;` already returns outside, and the token reference `T` then opens a lexer-rule context |
| RuleTracker.SemicolonThenToken | src/parser/LexerAdaptor.ts:72-85 | from a parser rule, `; } : T` goes outside at the `;`, stays there over the brace and the colon, and enters a lexer rule at `T` |
| RuleTracker.PrequelClose | src/parser/LexerAdaptor.ts:50-60 | a grammar-level block whose body leaves the context in the prequel or outside ends outside at its closing brace |
| RuleTracker.PrequelBlock | src/parser/LexerAdaptor.ts:50-60 | a grammar-level options/tokens/channels block without `;` stays in the prequel until its RBRACE, which returns outside |
| RuleTracker.PlainFromOutside | src/parser/LexerAdaptor.ts:72-83 | from outside, tokens that no branch but the `ID` one tests lead only outside or into a lexer or parser rule |
| RuleTracker.EntriesEndOutside | src/parser/LexerAdaptor.ts:50-85 | semicolon-terminated entries started outside or in the prequel end outside: the first `;` already leaves the prequel |
| RuleTracker.GrammarOptionsBlock | src/parser/LexerAdaptor.ts:50-85 | a grammar-level `options { k = v; ... }` block still ends outside at its brace, although its entries' semicolons leave the prequel early |
| RuleTracker.ActionHeaderBlock | src/parser/LexerAdaptor.ts:65-71 | `@name { ... }` keeps the action-header context until END_ACTION, which returns outside |
| RuleTracker.GrammarHeaderContexts | src/parser/LexerAdaptor.ts:27-34 | for `grammar T;` the contexts are outside, lexer rule, outside: `T` starts a lexer rule that its `;` stops at once |
| RuleTracker.ParserRuleRContexts | src/parser/LexerAdaptor.ts:72-85 | for `r : 'a' ;` the name starts a parser rule that lasts until the `;` |
| RuleTracker.GrammarDeclarationContexts | src/parser/LexerAdaptor.ts:27-34 | for `grammar T; r : 'a' ;` the contexts visited are exactly outside, lexer rule, outside, parser rule ×3, outside |
| RuleTracker.GrammarDeclarationTypes | src/parser/LexerAdaptor.ts:72-79 | for `grammar T; r : 'a' ;`, `T` is emitted as TOKEN_REF, `r` as RULE_REF, every other token with its scanned type |
| ModeStack.Push | src/parser/LexerAdaptor.ts:93-96 | pushing makes the given mode current and saves the old current mode on top of the unchanged saved modes |
| ModeStack.Pop | src/parser/LexerAdaptor.ts:101 | popping a non-empty stack removes exactly its top saved mode, which becomes current: the new saved modes followed by the new mode are the old saved modes |
| ModeStack.PushPop | src/parser/LexerAdaptor.ts:93-101 | pushing back the mode that a pop left undoes the pop |
| ModeStack.PopPush | src/parser/LexerAdaptor.ts:93-101 | popping undoes pushing |
| ModeStack.ArgumentMode | src/parser/LexerAdaptor.ts:92-97 | `[` selects the character-set mode exactly in a lexer rule and the argument mode exactly elsewhere |
| ModeStack.RequestsMore | src/parser/LexerAdaptor.ts:92-94 | `more()` is requested exactly when `[` enters the character-set mode |
| ModeStack.ParserRuleOptionsCharSet | src/parser/LexerAdaptor.ts:50-98 | after a parser rule's `options { k = v ; }` block, a `[` after a token reference opens a character set, while before the block's `;` a `[` would open an argument list |
| ModeStack.BeginArgument | src/parser/LexerAdaptor.ts:91-98 | exactly one mode is saved on top of the stack; the new mode is LexerCharSet iff the context is a lexer rule and Argument iff it is not |
| ModeStack.CloseArgument | src/parser/LexerAdaptor.ts:100-105 | the stack loses exactly its top; the type becomes ARGUMENT_CONTENT iff a saved mode remains after the pop (or it already was), and is untouched otherwise |
| ModeStack.CloseAction | src/parser/LexerAdaptor.ts:107-117 | the stack loses exactly its top; the type becomes ACTION_CONTENT iff a saved mode remains and both the mode left and the mode returned to are TargetLanguageAction, and is untouched otherwise |
| ModeStack.BeginEndArgument | src/parser/LexerAdaptor.ts:91-105 | opening an argument region and closing it restores the mode stack; the `]` becomes argument content when the region sat inside a pushed mode and otherwise keeps its type |
| ModeStack.BeginEndAction | src/parser/LexerAdaptor.ts:107-117 | opening an action body and closing it restores the mode stack; the `}` becomes action content when the body was opened from inside a nested action body and otherwise keeps its type |
| ModeStack.NestUnwinds | src/parser/LexerAdaptor.ts:100-117 | closing as many regions as were opened one inside the other returns to the state before the first |
| ModeStack.ArgumentClosesPush | src/parser/LexerAdaptor.ts:100-105 | closing an argument region opened on a state gives that state back, and the close is argument content iff the state is itself nested |
| ModeStack.ActionClosesPush | src/parser/LexerAdaptor.ts:107-117 | closing an action body opened on a state gives that state back, and the close is action content iff the state is a nested action body |
| ModeStack.NestedArgumentsClose | src/parser/LexerAdaptor.ts:100-105 | closing `d` nested argument regions types every inner `]` as argument content, and the outermost one too iff the outermost region sat inside a pushed mode |
| ModeStack.NestedActionsClose | src/parser/LexerAdaptor.ts:107-117 | closing `d` nested action bodies types every inner `}` as action content, and the outermost one iff it returns into a nested action body |
| ModeStack.ActionsUnwindToDefault | src/parser/LexerAdaptor.ts:107-117 | from the start state, `d` nested action bodies unwind to the default mode with nothing saved, and only the outermost `}` keeps its type |
| ModeStack.ArgumentsUnwindToDefault | src/parser/LexerAdaptor.ts:100-105 | likewise for `d` nested argument lists |
| Adaptor.LexerAdaptor.constructor | src/parser/LexerAdaptor.ts:21-41 | a new adaptor is outside any rule and outside any options block; the base lexer starts in the default mode with nothing saved |
| Adaptor.LexerAdaptor.Reset | src/parser/LexerAdaptor.ts:43-47 | after `reset` the context is outside and the options flag is clear; the base lexer is back in its start state |
| Adaptor.LexerAdaptor.BaseReset | src/parser/LexerAdaptor.ts:46 | the base lexer's reset, as assumed under "Left out": the token type is INVALID_TYPE, the mode is the default one with nothing saved, and no `more()` is pending |
| Adaptor.LexerAdaptor.Emit | src/parser/LexerAdaptor.ts:49-89 | the new context and the token's type are those of `Step` on the old context and type; the emitted type is the final one; the mode stack and the `more()` request are untouched |
| Adaptor.LexerAdaptor.PushMode | src/parser/LexerAdaptor.ts:93-96 | the current mode is saved on top of the stack and the given mode becomes current |
| Adaptor.LexerAdaptor.PopMode | src/parser/LexerAdaptor.ts:101-109 | the top saved mode becomes current and is returned |
| Adaptor.LexerAdaptor.HandleBeginArgument | src/parser/LexerAdaptor.ts:91-98 | the mode stack moves as `BeginArgument`; `more()` is requested exactly when the context is a lexer rule; the context and the type are untouched |
| Adaptor.LexerAdaptor.HandleEndArgument | src/parser/LexerAdaptor.ts:100-105 | the mode stack and the type move as `CloseArgument`; the context and the `more()` request are untouched |
| Adaptor.LexerAdaptor.HandleEndAction | src/parser/LexerAdaptor.ts:107-117 | the mode stack and the type move as `CloseAction`; the context and the `more()` request are untouched |

## Left out

- The implementation of the antlr4ng runtime's base `Lexer` is not part of this
  model: `super.emit()`, `super.reset()`, `pushMode`/`popMode`, `more()` and
  `_input`. Only their assumed effects on the state the adaptor touches are
  modelled:
  - the token type being built;
  - the current mode and the saved modes, with the usual stack behaviour
    (`PushMode`, `PopMode`);
  - a flag for `more()`.
- `super.reset()` is modelled by `BaseReset`, which is taken to restore:
  - the token type to INVALID_TYPE;
  - the default mode with an empty stack;
  - no pending `more()`.
- Adaptor.LexerAdaptor.HandleBeginArgument: `more()` is a flag, not the runtime's
  effect. The runtime's `more()` sets the token type to `Lexer.MORE`, which the
  model does not do. In the model the flag stays set: `Emit`
  keeps it, and only the constructor and `Reset` clear it. So "the type is untouched"
  and "no pending `more()`" hold of this flag abstraction only.
- The generated `ANTLRv4Lexer` is not part of this model.
  - Its token types and modes are distinct datatype cases.
  - Token types the adaptor never tests are `Other(code)`.
  - The sentinels -10 and -11 and INVALID_TYPE are taken to differ from every real
    token type.
- Vocabulary.ToUpper: ASCII upper-casing ('a'..'z' to 'A'..'Z', every other
  character unchanged), not JavaScript's Unicode `toUpperCase`, which also maps
  non-ASCII lower-case letters ('é' to 'É').
- Vocabulary.ClassifyId: built on the ASCII `ToUpper`, so the model treats every
  non-ASCII initial as a token reference. JavaScript differs for
  lower-case non-ASCII letters: 'é', for example, upper-cases to 'É', so the source
  makes such an identifier a rule reference.
- Reading the token's first character from the character stream is left out.
  `Emit` receives that character as a parameter.
- Adaptor.LexerAdaptor.PopMode: requires a non-empty saved-mode stack. It does not
  model the runtime's failure on an empty one, so the end handlers carry the same
  requirement.
- `#insideOptionsBlock` is only written, never read. It appears only in the
  constructor and in `Reset`.
- The token object that `super.emit()` builds is represented by its type alone.
  Position, text and channel are left out.
