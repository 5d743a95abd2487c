# A verified model of the embedded shell core

This project models the heap-free C99 shell core and two of its transport ports in Dafny and proves what
they promise. `dafny verify dfyconfig.toml` checks everything.

The model has two layers. Plain functions say what each part means: a declarative command language, a
tree of command tables, a list of history lines, an editor with the text left and right of the cursor. The
code itself is imperative and so are its models: loops and classes over arrays, with the memmoves, the
read and write offsets, the ring of slots and the fields of the original. Every method is proved equal to its
function, and the lemmas are about the functions, so they hold of the buffers.

| module | models |
|---|---|
| `Text` | statuses, `isspace` in the C locale, C strings, `memmove`/`memcpy`/`memset` |
| `Tokenizer` | `sh_tokenize`, in place in one buffer |
| `Grammar` | the command language without a scanner: blanks, words, pieces, escapes |
| `Printer` | `append_token` and what it and the tokenizer undo of each other |
| `RawScanner` | `raw_token_span` and `unmatched_quote`, the second reader of a line |
| `Ansi` | the incremental key decoder and a grammar of whole streams |
| `History` | the fixed ring of slots and the bounded list it stands for |
| `Commands`, `Registry` | validation of tables that may be cyclic, registration, resolution, dispatch |
| `Config` | what `sh_init` accepts, and the callbacks |
| `Completion`, `CompletionLaws` | the Tab key |
| `Masking` | redacted history lines and the redacted display of the line being edited |
| `Editor`, `EditorLaws` | the whole editor as a function of the session, and its laws over byte streams |
| `ShellCore` | the shell object with its buffers, proved against `Editor` |
| `Transport` | the bounded loop of partial writes |
| `TcpPort` | one TCP session, with a log of callbacks |
| `TcpSetup` | the initialisation of such a session and of the shell in it |
| `FreertosPort` | the FreeRTOS adapter, with any number of tasks and interrupts interleaving |
| `RegistrationLaws`, `DispatchLaws`, `CandidateLaws` | registration, dispatch and candidates, stated by names, flags, paths and words alone |
| `EditingLaws`, `EnterLaws`, `DisplayLaws` | what each byte, an entered line and the display do, stated over the line, the cursor and the tokens |
| `TcpLaws`, `FreertosLaws` | the ports, as tables of answers and by the steps that were taken |
| `PermutationLaws` | the order of command sets does not matter to any session |
| `PortLaws` | what a session becomes that is fed through a port |

How the parts of the C program appear:

- A byte is a `char`; a C string is the text before the first NUL of an array. Pointers into a buffer are
  offsets. `const char *` inputs and command tables, which nothing writes, are values; a table is an index
  into a memory of rows, so tables may point at each other in cycles.
- Callbacks are arbitrary functions. A handler's status depends on the calls made before and on the call;
  a mask sees the arguments of the resolved path, of which the 128-byte path string is a function; a
  candidate provider is a function of its indices. Handlers do not touch the editor or the registry.
- The editor runs with a configuration that `sh_init` has accepted (`InitShell` has the rejections), and a
  draft buffer, when there is one, holds a whole line; `SH_STORAGE_DEFINE` gives none when history is disabled
  (shell/include/sh_shell.h:112-114).
- C functions with several phases are split into one method for each phase. The history fields and the
  decoder are objects of their own, `Ring` and `Decoder`.
- The model of a TCP session keeps a log of callbacks, and that of FreeRTOS keeps the bytes that came and
  went and a list of received chunks beside the port; these record what happened and decide nothing.

Where the code does less than one might expect, the model follows the code and the exact condition is proved:

- `PrintRoundTrip`: the printer quotes for a blank, a tab, a quote and a backslash only, so a token whose
  only special characters are \n, \v, \f or \r is not read back (`NewlineIsLost`). That is the
  whole condition.
- `ReadersDisagree`: inside single quotes the raw scanner honours a backslash and the tokenizer does not, so
  `'\''` is closed for one of them only. `ReadersAgree` covers every line where no such backslash hides a
  closing quote, which includes all lines without a backslash inside single quotes (`NoSingleBackslashAgrees`).
- `AddKeeps`: the history compares a line with the newest entry before it cuts the line to a slot, so a
  too long line whose cut is the newest entry becomes a second equal neighbour. That is the only way, and
  only a redacted line can be that long (`RememberMakesTwins`, `SecretsMakeTwins`).
- `RedactedEntryReadsBack`: masking can lengthen a line beyond its slot, and the cut entry does not read back
  (`LongRedactionIsCut`).
- `CountersAreTrue`: resetting the counters is refused while a task runs the loop, but not while another task
  is writing; what that write counts comes after the reset (`ResetDuringWrite`).
- `DisplayParsesIff`: a line that ends in a lone backslash, or has too many words, is displayed as it is, masked
  arguments included (`LoneBackslashHidesNothing`).
- `PollEndsIff`: when the shell rejects its input, `sh_tcp_session_poll` returns before it looks at the status
  of the receive callback, so a closed connection is noticed at the next poll only
  (`ShellErrorHidesClose`).

## Model

| member | source | states |
|---|---|---|
| Tokenizer.Tokenize | shell/src/sh_tokenizer.c:6-71 | In-place tokenizing returns the status and the tokens of the pure grammar on the original C string; the tokens lie one after another from the start of the buffer, each with its NUL, and argc is 0 on every error |
| Tokenizer.CompactWord | shell/src/sh_tokenizer.c:32-66 | The inner loop leaves the word of the grammar with its NUL at start; what is unread is never overwritten (write stays at or behind read, but for the final terminator) and nothing before start changes |
| Tokenizer.PointerReadsToken | shell/src/sh_tokenizer.c:27-70 | Behind each argv pointer stands, inside the buffer, the C string that is the token |
| Tokenizer.TokensBounds | shell/src/sh_tokenizer.c:6-71 | At most capacity tokens, none with a NUL, and together with their terminators no longer than the line with its own, so compacting in place always fits |
| Tokenizer.TokensExtend | shell/src/sh_tokenizer.c:18-70 | What follows a blank changes no word before it: tokenizing text with an addition is the first word, then the rest of the words |
| Tokenizer.SkipBlanks | shell/src/sh_tokenizer.c:18-24 | The loop over blanks stops at the first byte that is none, where the grammar continues |
| Tokenizer.BlanksAre | shell/src/sh_tokenizer.c:22-24 | The blanks are the bytes 9 to 13 and 32 |
| Tokenizer.TakeWord | shell/src/sh_tokenizer.c:27-67 | One turn of the outer loop adds exactly one pointer and one word, or reports the grammar's error |
| Tokenizer.ReadArgs | shell/src/sh_shell.c:852-893 | Reading one C string behind each pointer gives back the token list |
| Grammar.TokensSpell | shell/src/sh_tokenizer.c:6-71 | The tokenizer accepts exactly the lines that spell the tokens in a declarative language of blanks, bare text, quoted pieces and escapes, when there is room for them (both directions) |
| Grammar.SpelledWord | shell/src/sh_tokenizer.c:32-66 | A spelling in front of a blank or the end is what the scan of a word reads, whatever follows |
| Printer.TokenNeedsQuotes | shell/src/sh_shell.c:627-641 | True exactly when the token is empty or holds a blank, a tab, a quote or a backslash |
| Printer.AppendChar | shell/src/sh_shell.c:644-651 | The buffer always holds the longest part of the full text that fits, ended by a NUL |
| Printer.AppendToken | shell/src/sh_shell.c:654-676 | Whatever was printed before, the buffer afterwards holds as much as fits of that text followed by the printed token |
| Printer.AppendEscaped | shell/src/sh_shell.c:664-672 | The character loop appends the escaped form of the whole token, cut to the buffer |
| Printer.PrintedForm | shell/src/sh_shell.c:627-676 | A nonempty token without blank, tab, quotes and backslash is printed as it is; any other gets two quotes and one backslash for each double quote or backslash, no more, and reads back as itself |
| Printer.PrintIsJoined | shell/src/sh_shell.c:654-676 | The printed line is the printed tokens with one blank between two of them |
| Printer.PrintRoundTrip | shell/src/sh_shell.c:627-676 | Tokenizing the printed tokens gives the list back if and only if each of them is quoted by the printer or free of blanks; nothing else is needed |
| Printer.CutRoundTrip | shell/src/sh_shell.c:644-676 | The same of a printed line of which a buffer keeps n characters: it reads back if and only if nothing was cut off and every token prints faithfully |
| Printer.CutNeverReadsBack | shell/src/sh_shell.c:644-676 | A printed line cut anywhere does not read back as the printed tokens |
| Printer.PrintedWord | shell/src/sh_shell.c:654-676 | One printed token in front of a blank or the end of the line is read back as itself, with the rest of the line untouched |
| Printer.ReadBackPrintable | shell/src/sh_shell.c:627-676 | Whatever a printed line is read back as, also when it was cut, those tokens do print faithfully |
| RawScanner.RawTokenSpan | shell/src/sh_shell.c:299-341 | Found exactly for the indices of the line's spans, with that span's bounds |
| RawScanner.UnmatchedQuote | shell/src/sh_shell.c:344-364 | The quote that is open at the end of the line, or NUL |
| RawScanner.ReadersAgree | shell/src/sh_shell.c:299-364 | On a line in which no backslash inside single quotes hides a closing quote: if it tokenizes, its spans are one for each token, increasing and apart, and each slice alone tokenizes to its argv entry; if only a closing quote is missing, appending the reported quote makes it tokenize and the same holds with that quote after the last slice |
| RawScanner.ClosedLineParsesIff | shell/src/sh_shell.c:299-364 | On such a line, closed with the reported quote if that is all it lacks, the tokenizer succeeds if and only if the line does not end in a backslash with nothing to escape and has at most room spans |
| RawScanner.RejectsWhy | shell/src/sh_tokenizer.c:21-70 | On a line the two readers agree about the status of the tokenizer is TOO_MANY_ARGS exactly when it has more words than argv, else INVALID_ARG exactly when it ends in a lone backslash, else UNTERMINATED_QUOTE exactly when a quote is open |
| RawScanner.NoSingleBackslashAgrees | shell/src/sh_shell.c:299-364 | Every line without a backslash inside single quotes meets that condition |
| RawScanner.ReadersDisagree | shell/src/sh_shell.c:344-364 | A line outside the condition on which the tokenizer misses a quote and the raw scanner reports none open |
| RawScanner.FirstSpan | shell/src/sh_shell.c:310-337 | The first span of a line is its first word, and both readers continue from the same place |
| Ansi.Decoder.FeedByte | shell/src/sh_ansi.c:88-148 | One byte moves the decoder's fields as the transition function does and reports its event and whether the byte was consumed |
| Ansi.Decoder.FinishSequence | shell/src/sh_ansi.c:10-15 | Back to idle with an empty body |
| Ansi.Decoder.Reset | shell/src/sh_ansi.c:69-79 | The decoder stands for the idle state |
| Ansi.DecoderMeetsGrammar | shell/src/sh_ansi.c:30-148 | Fed byte by byte, the decoder makes of every stream what a whole-stream parse by the byte ranges of section 5.4 of ECMA-48 makes of it: every byte is passed through, taken, or the last byte of a key, exactly once; bodies that are too long mean no key |
| Ansi.RunSplit | shell/src/sh_ansi.c:88-148 | Decoding a stream in two pieces is decoding it at once |
| Ansi.AfterBounded | shell/src/sh_ansi.c:140-145 | After any stream the collected body is within its array |
| Ansi.ArrowAlwaysDecodes | shell/src/sh_ansi.c:88-148 | After any bytes whatever, ESC [ A is the Up key on its last byte and nothing on the first two |
| Ansi.KeyOfIff | shell/src/sh_ansi.c:30-66 | Exactly nine sequences are keys: A, B, C, D, H, F, 1~, 3~ and 4~ behind ESC [ |
| Ansi.SequenceIsTaken | shell/src/sh_ansi.c:88-148 | Behind ESC [, bytes 0x20 to 0x3f are taken, and a byte 0x40 to 0x7e ends the sequence as one of those keys or as nothing |
| Ansi.BadByteEndsSequence | shell/src/sh_ansi.c:135-138 | Any other byte but ESC is taken and ends the sequence |
| History.Ring.constructor | shell/src/sh_history.c:5-37 | A fresh ring over the storage is empty and valid |
| History.Ring.GetNewest | shell/src/sh_history.c:40-52 | Answers exactly for k below the count, with the slot whose C string is the k-th entry from the end |
| History.Ring.Clear | shell/src/sh_history.c:23-37 | Afterwards there are no entries, and every byte of all slots is NUL |
| History.Ring.Add | shell/src/sh_history.c:55-85 | Empty lines and repetitions of the newest entry are ignored; otherwise the line, cut to slot_size - 1, is appended and the last depth entries are kept |
| History.Ring.Choose | shell/src/sh_history.c:66-75 | Takes the first free slot, or the oldest one and makes the next one the oldest, so that the others keep their places |
| History.Ring.Reserve | shell/src/sh_history.c:66-75 | The chosen slot is the newest one, and all other slots still hold the entries that stay, in order |
| History.Ring.WriteSlot | shell/src/sh_history.c:77-84 | One slot gets the text and its NUL; all others keep theirs |
| History.RingIsWindow | shell/src/sh_history.c:55-85 | Over every run of adds and clears a ring holds exactly the last depth entries of any longer ring fed the same run |
| History.RunKeeps | shell/src/sh_history.c:23-85 | Over every run at most depth entries, each nonempty and shorter than a slot; no two neighbours equal when all lines are shorter than a slot |
| History.AddKeeps | shell/src/sh_history.c:55-85 | An add creates two equal neighbours if and only if the line is too long for a slot and its cut is the newest entry (with room for two) |
| Commands.IsValidCommandName | shell/src/sh_command.c:274-288 | True exactly for a nonempty name of printable non-blank characters |
| Commands.IsReservedRootName | shell/src/sh_command.c:291-302 | True exactly for the four built-in names |
| Commands.ValidateLevel | shell/src/sh_command.c:305-346 | OK exactly when the level is accepted, over tables that may be cyclic; terminates by the depth bound |
| Commands.AcceptsIffWalks | shell/src/sh_command.c:305-346 | Validation accepts if and only if every walk down the tables meets well-formed levels (valid and distinct names, child pointer and count that agree, arity bounds, no reserved root) and none is longer than SH_MAX_CMD_DEPTH |
| RegistrationLaws.AcceptedIff | shell/src/sh_command.c:274-346 | A table is accepted if and only if every walk down takes fewer than eight steps and meets tables with printable distinct names, no built-in's name among the roots, child pointer and count that agree, and 1 <= min_args <= max_args for handlers |
| RegistrationLaws.SetsRegisteredIff | shell/src/sh_command.c:369-400 | Sets are registered if and only if each is accepted and no root name is in two of them |
| RegistrationLaws.RootsAre | shell/src/sh_command.c:102-113 | The roots are the rows of all the sets |
| Commands.AcceptedIsAcyclic | shell/src/sh_command.c:315-343 | In an accepted graph no level that a walk reaches can be reached again from itself |
| Commands.AcceptedWalk | shell/src/sh_command.c:305-346 | A walk from an accepted level is short and ends in an accepted level |
| Registry.CheckCommandSets | shell/src/sh_command.c:377-400 | OK exactly when every set is accepted and no root name occurs in two sets |
| Registry.FindChild | shell/src/sh_command.c:12-21 | The first row of the table with that name, if any |
| Registry.FindRoot | shell/src/sh_command.c:102-113 | The first root with that name over all command sets, or in the flat table |
| Registry.ResolveCommand | shell/src/sh_command.c:88-131 | Returns the node and the consumed count of the longest path of names at the front of argv |
| Registry.ResolveIff | shell/src/sh_command.c:88-131 | On a registered tree: node and n are the answer if and only if the first n arguments are the names on a path to that node and the next one names no child of it |
| Registry.PermutedRegistered | shell/src/sh_command.c:369-400 | A permutation of registered command sets is registered |
| Registry.PermutingSetsResolvesAlike | shell/src/sh_command.c:102-111 | Permuting command sets is accepted alike and changes no resolution |
| Registry.DispatchCommand | shell/src/sh_command.c:185-271 | Chooses the built-in, the status or the one handler call of the dispatch function |
| Registry.DispatchBuiltin | shell/src/sh_command.c:195-224 | The built-ins' part of that choice, or nothing when the name is not theirs |
| Registry.HandlerRunsIff | shell/src/sh_command.c:226-270 | On a registered tree a handler runs (once) if and only if argv is the names on a path to its leaf followed by a payload that neither asks for help nor breaks the arity; its argv[0] is its own name and argc is within its bounds; no enabled built-in can hide it |
| DispatchLaws.ResolveNothing | shell/src/sh_command.c:99-130 | Nothing is resolved, and nothing consumed, exactly when the first argument names no root |
| DispatchLaws.EndsAtIff | shell/src/sh_command.c:88-131 | Resolution ends at a node with n consumed exactly when the first n arguments are a path to it and no child has the next name |
| DispatchLaws.DispatchDoes | shell/src/sh_command.c:185-271 | What a line of arguments does, if and only if: help, history, echo and clear by their words; UNKNOWN_COMMAND when no root or no child has the name; OK for a request for help or a bare parent; INCOMPLETE_COMMAND without a handler; INVALID_ARG outside the arity; otherwise the one handler call |
| Registry.PermutingSetsDispatchesAlike | shell/src/sh_command.c:102-111 | Nor does it change which built-in or handler runs, with which arguments |
| Registry.RootNotReserved | shell/src/sh_command.c:291-324 | A registered path never starts with the name of an enabled built-in |
| Completion.CommonPrefixLen | shell/src/sh_completion.c:155-162 | The length of the longest common prefix of two names |
| Completion.CommonLenIsLongest | shell/src/sh_completion.c:155-162 | That prefix is common, and no longer one is |
| Completion.SharedIsLongest | shell/src/sh_completion.c:314-337 | What the candidate loop accumulates is the longest common prefix of all candidates within the line limit |
| Completion.LevelLimit | shell/src/sh_completion.c:84-100 | As many candidates as the table, all command sets and the built-ins have together, or 256 for a provider |
| Completion.LevelCandidate | shell/src/sh_completion.c:103-152 | The candidate at an index of the concatenation of command sets and built-ins, or the provider's answer; hidden rows give no name |
| Completion.FindExactLevel | shell/src/sh_completion.c:60-81 | The first row of the same concatenation with that name |
| Completion.ScanCandidates | shell/src/sh_completion.c:314-337 | First match, number of matches and shared length of all candidates that start with the prefix |
| Completion.DescendLevels | shell/src/sh_completion.c:286-312 | The descent through exact names reaches the candidates of the recursive specification, or none |
| CompletionLaws.VisibleNamesAre | shell/src/sh_completion.c:103-152 | The matches in a table are exactly the names of its rows that are not hidden and start with the typed prefix |
| CandidateLaws.TableOffers | shell/src/sh_completion.c:103-152 | The same, and there are as many matches as such rows |
| CandidateLaws.HiddenIsNotOffered | shell/src/sh_completion.c:314-341 | A Tab whose matching rows are all hidden answers OK and changes nothing |
| CandidateLaws.ProviderOffers | shell/src/sh_completion.c:84-125 | A provider's matches are its first 256 answers, up to the first missing one, that begin with the prefix, and as many |
| CandidateLaws.TabLooksBehind | shell/src/sh_completion.c:251-290 | A Tab completes the last token before the cursor, or a new one behind a blank, in the scope of the tokens before it |
| CandidateLaws.RootOffers | shell/src/sh_completion.c:272-290 | At the start of a line the matches are the visible registered names and, with built-ins, clear, help, history and echo |
| CandidateLaws.BuiltinsOffer | shell/src/sh_completion.c:286-312 | Behind history the matches are among clear and status, behind echo among off, on and status, behind help and clear there are none |
| CandidateLaws.UnknownOffersNothing | shell/src/sh_completion.c:286-312 | Behind a word that names no root and no built-in nothing is offered |
| CompletionLaws.TabEffect | shell/src/sh_completion.c:229-354 | The line changes if and only if there is one candidate, or the candidates share more than what was typed, and the new line fits; then exactly the token around the cursor gives way to the longest common prefix, plus one blank only when the match is unique and at the end of the line. The status is the tokenizer's error, OK without candidates, AMBIGUOUS when two or more share nothing beyond what was typed, LINE_TOO_LONG when the new line does not fit, and OK otherwise |
| CompletionLaws.DescentFollowsResolver | shell/src/sh_completion.c:286-312 | Where dispatch resolves a parent completion offers the children of the same node, and nothing when words follow that name no child; behind a resolved leaf it asks the provider for the argument's index in the handler's argv, and offers nothing when there is none or the command is sensitive |
| CompletionLaws.PartialCompletionIsStable | shell/src/sh_completion.c:251-353 | If Tab extended a token over two or more names of command tables without quotes or backslashes, with room for one more token, a second Tab reports the ambiguity and changes nothing |
| PermutationLaws.PermutedShows | shell/src/sh_completion.c:103-152 | The candidates of permuted sets are the same ones, counted as often |
| PermutationLaws.SameShared | shell/src/sh_completion.c:314-337 | The number of candidates and their longest common prefix do not depend on their order |
| PermutationLaws.PermutingSetsTabsAlike | shell/src/sh_completion.c:229-354 | Permuting command sets changes neither the line after a Tab nor its status |
| PermutationLaws.PermutingSetsChangesNothing | shell/src/sh_shell.c:765-893 | Permuting command sets changes nothing: every stream of bytes gives the same session, calls, history and first error |
| CompletionLaws.BareTokens | shell/src/sh_tokenizer.c:6-71 | Text without blanks, quotes and backslashes behind any line lengthens its last token, or starts one, and changes nothing else |
| CompletionLaws.SameNames | shell/src/sh_completion.c:314-337 | Typing more of what all matches share keeps the matches |
| Masking.BuildHistoryLine | shell/src/sh_shell.c:679-724 | Whether a line is recorded, and the C string that is: the line itself, or the printed redacted arguments when one is masked |
| Masking.RebuildLine | shell/src/sh_shell.c:709-722 | The second loop prints all arguments with the masked ones replaced, cut to the buffer |
| Masking.RedactedLineReadsBack | shell/src/sh_shell.c:679-724 | The redacted line that build_history_line makes tokenizes to argv with exactly the masked entries replaced by <hidden>, if and only if the printed text fits its buffer and the unmasked entries print faithfully |
| Masking.RedactedReadsBack | shell/src/sh_shell.c:679-724 | The same for any number of characters that are kept of the printed text |
| Masking.NewlineIsLost | shell/src/sh_shell.c:713-722 | Such a line: a plain argument of one newline beside a hidden one is printed bare and read back as nothing |
| Masking.LongRedactionIsCut | shell/src/sh_shell.c:713-722 | Such a line: 16 characters do not keep a command with two hidden arguments |
| Masking.ParseForDisplay | shell/src/sh_shell.c:375-395 | The tokens of the line, or of the line closed by its open quote |
| Masking.BuildDisplayLine | shell/src/sh_shell.c:367-422 | The display buffer holds the line with the non-quote characters of masked spans starred |
| DisplayLaws.DisplayIs | shell/src/sh_shell.c:367-422 | On every line the two readers agree about that does not end in a lone backslash and has at most argc_max words: each argument has its own span, which alone reads as it, and the display is the line with a star for every byte of a secret argument that is not a quote; secret are the payload of a sensitive command and what the mask says |
| Masking.DisplayParsesIff | shell/src/sh_shell.c:367-422 | On a line the two readers agree about the display is made from parsed arguments if and only if the line does not end in a backslash with nothing to escape and has at most argc_max words; otherwise the line is shown as it is |
| Masking.LoneBackslashHidesNothing | shell/src/sh_shell.c:397-399 | Such a line: with a backslash at its end nothing is hidden, under any configuration and registry |
| Masking.OpenQuoteIsClosed | shell/src/sh_shell.c:344-395 | On a line the two readers agree about, closing an unterminated line with the reported quote always tokenizes, so the display hides there too |
| EditorLaws.InputByteValid | shell/src/sh_shell.c:765-809 | Every byte keeps all bounds: line within the capacity and free of NUL, draft, history entries, view in [-1, count), decoder body |
| EditorLaws.ChunksDoNotMatter | shell/src/sh_shell.c:812-827 | Final state and first error status do not depend on how a stream is cut into blocks |
| EditorLaws.NavigationWalks | shell/src/sh_shell.c:442-476 | From view -1, any word of Up, Down, Left, Right, Home and End walks the view, clamped; the line is the entry at the view cut to the line limit, or the original unsent text whenever the view is back at -1; the stored history is untouched |
| EditorLaws.KeyBytesPress | shell/src/sh_shell.c:765-809 | Whatever the decoder was in, the bytes of any key press that key, report no error and leave the decoder idle |
| EditorLaws.KeysPress | shell/src/sh_shell.c:727-827 | The bytes of any word of keys press those keys one after the other |
| EditorLaws.NavigationInput | shell/src/sh_shell.c:442-827 | NavigationWalks for the bytes as they arrive: the session after the bytes of a word of movement keys is the clamped walk, with the typed text back whenever the view is |
| EditorLaws.EnterUpEnterReplays | shell/src/sh_shell.c:442-476 | Enter, Up, Enter, begun when the decoder is not inside a control sequence (which would swallow the Enter): for an unmasked, recorded line that does not clear the history, Up shows it again, the second Enter makes the same handler call with the same arguments, and the history is as the first Enter left it |
| EditorLaws.RedactedEntryReadsBack | shell/src/sh_shell.c:679-893 | The entry that the ring keeps of a line with masked arguments tokenizes to argv with exactly those replaced, if and only if the redacted line is shorter than a slot and at most SH_MAX_LINE_LEN long and the other arguments print faithfully |
| EditorLaws.RememberMakesTwins | shell/src/sh_shell.c:879-882 | Entering a line makes two equal neighbours in the history if and only if it is recorded with hidden arguments, its redacted text is too long for a slot, and the part that fits is the newest entry already (with room for two) |
| EditorLaws.SecretsMakeTwins | shell/src/sh_shell.c:879-882 | Such lines, in a shell that is accepted: with slots of four bytes and a sensitive command p, p a and then p b are both kept as the same three characters |
| EditorLaws.DeleteWordRemoves | shell/src/sh_shell.c:550-569 | Ctrl-W removes all blanks before the cursor and exactly the one word before them |
| EditorLaws.TypedThenRemoved | shell/src/sh_shell.c:479-530 | Backspace undoes a typed character, and so does Delete after a step to the left |
| EditingLaws.FreshIsEmpty | shell/src/sh_shell.c:200-217 | A fresh session has an empty line, no history, view -1, no draft and an idle decoder |
| EditingLaws.TypingInserts | shell/src/sh_shell.c:479-503 | Any bytes from blank to tilde go into the line in front of the cursor as they are, while they fit; nothing else changes but the history view, and the status is OK |
| EditingLaws.FullLineRefuses | shell/src/sh_shell.c:483-485 | On a full line a further character is LINE_TOO_LONG and changes nothing |
| EditingLaws.BackspaceErases | shell/src/sh_shell.c:506-517 | Bytes 8 and 127 take away the character in front of the cursor |
| EditingLaws.CtrlUEmpties | shell/src/sh_shell.c:533-547 | Byte 21 empties the line, and the draft with secure clearing |
| EditingLaws.CtrlCEmpties | shell/src/sh_shell.c:572-592 | Byte 3 empties line and draft |
| EditingLaws.CtrlWErasesWord | shell/src/sh_shell.c:550-569 | Byte 23 takes away the blanks in front of the cursor and the one word before them, and keeps the rest |
| EditingLaws.OtherBytesDoNothing | shell/src/sh_shell.c:765-809 | All other bytes leave the session alone, and so does a line feed behind a carriage return |
| EditingLaws.TabByte | shell/src/sh_shell.c:793-793 | A Tab puts its outcome into the line and leaves the history view, or changes nothing |
| EditingLaws.CursorKeysMove | shell/src/sh_shell.c:727-762 | Left, Right, Home and End, with both spellings, put the cursor where they say and change nothing else |
| EditingLaws.DeleteKeyErases | shell/src/sh_shell.c:520-530 | Delete takes away the character at the cursor |
| EditingLaws.HistoryKeysStep | shell/src/sh_shell.c:442-476 | Up and Down step the view within the history, keep the typed line as draft when they start, and show the entry or the draft with the cursor at its end |
| EnterLaws.EnterRejects | shell/src/sh_shell.c:595-624 | A line that does not tokenize, or has no words, changes nothing but the line and answers the error or OK |
| EnterLaws.EnterRunsLine | shell/src/sh_shell.c:595-624 | A line with words does exactly what DispatchDoes says: status, handler call, echo switch; and the history is emptied by history clear, unchanged by a NO_HISTORY command, and otherwise gets the typed line or, when an argument is secret, the printed line with <hidden> in its place, cut to the slot |
| EnterLaws.OnlyHistoryClears | shell/src/sh_command.c:134-182 | Only the line history clear empties the history, and only echo on and echo off switch the echo |
| EnterLaws.LongLineIsRefused | shell/src/sh_shell.c:865-868 | A line longer than the limit is LINE_TOO_LONG and changes nothing |
| EditorLaws.TabValid | shell/src/sh_completion.c:229-354 | A Tab keeps all the bounds of the editor, for names of any length |
| ShellCore.Shell.constructor | shell/src/sh_shell.c:150-218 | On a configuration that is accepted, the buffers stand for the fresh session with no commands |
| ShellCore.CheckLimits | shell/src/sh_shell.c:174-198 | Limits left at zero are filled in from the buffer sizes; OK exactly when the resulting limits are within bounds and every buffer has the room they need, history slots and draft included |
| Config.LimitsInNumbers | shell/src/sh_shell.c:168-198 | Which limits and buffers are accepted, in numbers, with limits left at zero taken from the buffers |
| Config.DefaultsInNumbers | shell/src/sh_shell.c:132-147 | The default configuration in numbers |
| ShellCore.InitShell | shell/src/sh_shell.c:150-218 | With a configuration or, for a NULL one, the default: NULL or empty line and argv buffers are INVALID_ARG, bad limits or too small buffers INVALID_CONFIG, both with every buffer untouched; otherwise the new shell stands for the fresh session with the filled-in limits |
| ShellCore.Shell.InsertChar | shell/src/sh_shell.c:479-503 | The memmove edit is the editor's insertion left of the cursor, and refuses with LINE_TOO_LONG exactly at the limit |
| ShellCore.Shell.Backspace | shell/src/sh_shell.c:506-517 | Removes the character left of the cursor and leaves the rest |
| ShellCore.Shell.DeleteAtCursor | shell/src/sh_shell.c:520-530 | Removes the character at the cursor and leaves the rest |
| ShellCore.Shell.DeleteWordLeft | shell/src/sh_shell.c:550-569 | Removes the word left of the cursor |
| ShellCore.Shell.ClearInputLine | shell/src/sh_shell.c:533-547 | Empties the line; with secure clearing the draft too, and then every byte of both is NUL |
| ShellCore.Shell.CancelInputLine | shell/src/sh_shell.c:572-592 | Empties line and draft, leaves the history view and resets the decoder. With secure clearing every byte of line and draft is NUL |
| ShellCore.Shell.SetLine | shell/src/sh_shell.c:286-296 | The line is as much of the text as fits, with the cursor at its end |
| ShellCore.Shell.MoveHistory | shell/src/sh_shell.c:442-476 | One step of the clamped walk through the history, with the draft saved and restored |
| ShellCore.Shell.ShowView | shell/src/sh_shell.c:469-474 | The line is the entry at the view, or the draft, cut to the line limit, with the cursor at its end |
| ShellCore.Shell.ShownText | shell/src/sh_shell.c:458-474 | The C string of the entry at the view, or of the draft |
| ShellCore.Shell.HandleEscapeKey | shell/src/sh_shell.c:727-762 | Each key does to the buffers what it does to the session |
| ShellCore.Shell.Record | shell/src/sh_shell.c:852-893 | The ring afterwards stands for the history with the redacted or plain line remembered |
| ShellCore.Shell.ClearHistory | shell/src/sh_history.c:23-37 | No entries, no draft, no view, and every byte of the slots and of the draft is NUL |
| ShellCore.Shell.RunCommand | shell/src/sh_command.c:185-271 | The dispatch changes exactly what its action says and returns its status |
| ShellCore.Shell.ParseText | shell/src/sh_shell.c:852-893 | The copied text tokenizes in place to the grammar's tokens or error |
| ShellCore.Shell.ExecuteLine | shell/src/sh_shell.c:852-893 | The buffers do what the editor's execution of the line does; a line that is too long or does not tokenize changes nothing and records nothing. With secure clearing argv is all zero afterwards |
| ShellCore.Shell.HandleEnter | shell/src/sh_shell.c:595-624 | Executes the line, then an empty line, no draft and view -1. With secure clearing every byte of line and draft is NUL and argv is all zero |
| ShellCore.Shell.FindTokenStart | shell/src/sh_completion.c:258-263 | The start of the run of non-blanks that ends at the cursor |
| ShellCore.Shell.FindTokenEnd | shell/src/sh_completion.c:264-267 | The end of the run of non-blanks that begins at the cursor |
| ShellCore.Shell.Splice | shell/src/sh_completion.c:178-198 | The memmove and memcpy put the text between what was before start and what was from end on, with the cursor after it and the NUL in place |
| ShellCore.Shell.ReplaceTokenAt | shell/src/sh_completion.c:165-199 | Replaces the token around the cursor, or refuses with LINE_TOO_LONG and changes nothing |
| ShellCore.Shell.CompleteLine | shell/src/sh_completion.c:229-354 | The buffers do what the Tab specification says |
| ShellCore.Shell.CompleteIn | shell/src/sh_completion.c:314-353 | From a level on, the line and the status are those of the Tab specification in the level's scope |
| ShellCore.Shell.HandleByte | shell/src/sh_shell.c:778-808 | A byte outside key sequences does what it does to the session; with secure clearing Enter, Ctrl-C and Ctrl-U leave every byte of line and draft NUL |
| ShellCore.Shell.InputByte | shell/src/sh_shell.c:765-809 | For every byte the array-based editor refines the pure one (left text, right text, history list, view, draft, decoder, handler calls) and keeps cursor <= line_len < capacity with the first NUL at line_len |
| ShellCore.Shell.Decode | shell/src/sh_shell.c:777-786 | The decoder's part: its state moves, and the key or what became of the byte is reported |
| ShellCore.Shell.Input | shell/src/sh_shell.c:812-827 | A block of bytes does what the editor's run over it does, and the first error is reported |
| ShellCore.Shell.RegisterCommands | shell/src/sh_command.c:349-366 | OK exactly when the table is accepted; a rejected table leaves the old registry in place; the session is untouched |
| ShellCore.Shell.RegisterCommandSets | shell/src/sh_command.c:369-407 | INVALID_ARG for a NULL array with a count; OK exactly when all sets are accepted and apart, or there are none; otherwise the old registry stays in place |
| Transport.TransportWriteAll | shell/src/sh_transport.c:12-84 | The loop returns the status, the total and the writer of the recursive specification, for every callback |
| Transport.JudgeCall | shell/src/sh_transport.c:51-74 | The checks after a call, in their order: an impossible count, an unknown status, an error, completion, no progress |
| Transport.WriteAllKeeps | shell/src/sh_transport.c:12-84 | For every callback: at most max_attempts calls, each offered exactly the unwritten rest; the accepted bytes concatenate to data[..total] in order; OK means all were written, and WOULD_BLOCK or ATTEMPTS_EXHAUSTED means exactly max_attempts calls with bytes left |
| Transport.LastCallTells | shell/src/sh_transport.c:32-83 | The status is what the last call tells, in the order of the checks (impossible count or unknown status, error, completion, no progress, out of calls), and every call before it made progress or asked to wait |
| Transport.WriteAllReachesSink | shell/src/sh_transport.c:12-84 | Behind any adapter that keeps the contract the sink has received exactly data[..total] |
| TcpPort.TcpSession.constructor | shell/ports/tcp/sh_port_tcp.c:52-64 | An initialised session is open and has run no callback |
| TcpSetup.InitSession | shell/ports/tcp/sh_port_tcp.c:38-93 | A missing pointer is INVALID_ARGUMENT, storage, limits or commands that the shell refuses are ERR_SHELL, and only otherwise there is an open session, with a fresh shell in it that has these commands |
| TcpPort.TcpSession.NotifyCloseOnce | shell/ports/tcp/sh_port_tcp.c:6-12 | The close callback runs at most once |
| TcpPort.TcpSession.SetTerminalState | shell/ports/tcp/sh_port_tcp.c:15-22 | Only an open session changes its state, and then the close callback runs |
| TcpPort.TcpSession.CloseSession | shell/ports/tcp/sh_port_tcp.c:183-196 | A close ends an open session and is without effect on one that has ended |
| TcpPort.TcpSession.TransportWrite | shell/ports/tcp/sh_port_tcp.c:239-292 | One send attempt maps state, count and status as the session function does |
| TcpPort.TcpSession.PollOnce | shell/ports/tcp/sh_port_tcp.c:111-180 | One poll, with anything the shell may do while it handles the input, makes the session function's step and result |
| TcpPort.EveryRun | shell/ports/tcp/sh_port_tcp.c:111-292 | Over every run of polls, writes and closes: the close callback has run exactly once if and only if the state is terminal, no read or write callback runs after it, and the bytes fed to the shell are the confirmed in-range bytes, once and in order, whatever status came with them |
| PortLaws.TcpFeedsEditor | shell/ports/tcp/sh_port_tcp.c:111-180 | After every run the editor inside the session is what the confirmed bytes make of a fresh one, however they were cut into polls |
| PortLaws.FreshTabIsAmbiguous | shell/src/sh_completion.c:339-353 | A Tab in a fresh session with built-ins is ambiguous, so one byte can be such an error |
| TcpPort.TerminalIsAbsorbing | shell/ports/tcp/sh_port_tcp.c:6-22 | After a terminal state no later step changes the state or runs a callback |
| TcpPort.PollEndsIff | shell/ports/tcp/sh_port_tcp.c:126-179 | Exactly when a poll ends an open session; a shell error hides a closed connection until the next poll |
| TcpLaws.PollTable | shell/ports/tcp/sh_port_tcp.c:111-180 | State, last shell status and the whole result of a poll of an open session, for every answer of the callback and of the shell |
| TcpLaws.PollOfEnded | shell/ports/tcp/sh_port_tcp.c:121-124 | A poll of an ended session asks nobody and answers ERR_CLOSED |
| TcpLaws.WriteTable | shell/ports/tcp/sh_port_tcp.c:239-292 | State, status and count of a write, for every state of the session and every answer of the socket |
| TcpLaws.CloseTable | shell/ports/tcp/sh_port_tcp.c:183-196 | A close ends an open session as closed locally, with one close callback, and does nothing to an ended one |
| TcpPort.ShellErrorHidesClose | shell/ports/tcp/sh_port_tcp.c:136-149 | Such a poll: a closed connection reported with a Tab that is ambiguous leaves the session open |
| TcpPort.TcpWriteReachesSocket | shell/ports/tcp/sh_port_tcp.c:239-292 | Through a session the write loop puts data[..total] on the socket in order and once, with the same meaning of the statuses |
| FreertosPort.PortObject.constructor | shell/ports/freertos/sh_port_freertos.c:47-51 | A fresh port: not running, no stop, zero counters |
| FreertosPort.InitPort | shell/ports/freertos/sh_port_freertos.c:35-53 | A port exactly when both streams are there, the read timeout is neither zero nor endless and the read chunk is within bounds; otherwise SH_ERR_INVALID_CONFIG |
| FreertosPort.PortObject.TryEnter | shell/ports/freertos/sh_port_freertos.c:78-84 | Refused exactly while running is set, which it then is |
| FreertosPort.PortObject.Fail | shell/ports/freertos/sh_port_freertos.c:110-113 | One critical section counts the error and clears running |
| FreertosPort.PortObject.Count | shell/ports/freertos/sh_port_freertos.c:104-106 | One critical section adds the chunk to the delivered counter |
| FreertosPort.PortObject.Leave | shell/ports/freertos/sh_port_freertos.c:119-121 | One critical section clears running and nothing else |
| FreertosPort.PortObject.RequestStop | shell/ports/freertos/sh_port_freertos.c:126-135 | The stop is latched and nothing else changes |
| FreertosPort.PortObject.ClearStop | shell/ports/freertos/sh_port_freertos.c:138-152 | Refused, without effect, exactly while a task is running |
| FreertosPort.PortObject.ResetStats | shell/ports/freertos/sh_port_freertos.c:278-292 | Refused, without effect, exactly while a task is running |
| FreertosPort.PortObject.Receive | shell/ports/freertos/sh_port_freertos.c:170-207 | The bytes the stream took are appended and counted, the others are counted as overflow, with saturating counters |
| FreertosPort.PortObject.TransportWrite | shell/ports/freertos/sh_port_freertos.c:210-255 | The bytes the stream took are appended and reported, WOULD_BLOCK when some are left |
| FreertosPort.PortObject.ReceiveNothing | shell/ports/freertos/sh_port_freertos.c:184-190 | Bad arguments in an interrupt fail and count one error |
| FreertosPort.PortObject.WriteNothing | shell/ports/freertos/sh_port_freertos.c:223-232 | Bad arguments of a write are INVALID_ARGUMENT and count one error |
| FreertosPort.SendThenCount | shell/ports/freertos/sh_port_freertos.c:238-249 | A write to the stream followed by its count is the write of the port |
| FreertosPort.EveryInterleaving | shell/ports/freertos/sh_port_freertos.c:65-292 | Every interleaving of any number of tasks, in and outside the loop, with interrupts, stops, resets, writes and the TX reader keeps the invariant of the adapter |
| FreertosPort.OneTaskRuns | shell/ports/freertos/sh_port_freertos.c:78-123 | At most one task is inside the loop, running is true exactly while one is, and while one is clear_stop, reset_stats and another run are refused |
| FreertosPort.BytesAreConserved | shell/ports/freertos/sh_port_freertos.c:90-207 | The shell was fed the accepted bytes in order, minus chunks dropped by a stop (at most one for each run, no longer than the read chunk), minus the chunk in hand and the bytes still in the stream; accepted and overflowed bytes add up to the offered ones; the reader of the TX stream got the bytes it took from any task, in order, and taken and refused bytes add up to the written ones |
| FreertosPort.CountersAreTrue | shell/ports/freertos/sh_port_freertos.c:7-21 | In every interleaving each counter is min(true total, UINT32_MAX) since the last reset: of accepted, overflowed and fed bytes (unless a task is between that count and sh_input) and of failures; of the bytes the TX stream took and refused, once all writes are counted, if and only if no such write was under way at the reset (or the counter is full anyway) |
| FreertosLaws.PastIsBrought | shell/ports/freertos/sh_port_freertos.c:65-292 | What has come and gone, up to now and up to the last reset that was not refused, is the sum of what the steps taken have brought |
| FreertosLaws.CountersBySteps | shell/ports/freertos/sh_port_freertos.c:7-21 | Each counter is, by the steps alone, what they brought since that reset, failed sh_input calls and bad calls included |
| FreertosLaws.FailedInputFails | shell/ports/freertos/sh_port_freertos.c:108-115 | After a failed sh_input the only step of the task is to count the error, clear running and leave |
| FreertosLaws.NothingFedBetweenRuns | shell/ports/freertos/sh_port_freertos.c:78-123 | Once a run has failed or ended nothing is fed to the shell before another run begins |
| FreertosLaws.StopIsLatched | shell/ports/freertos/sh_port_freertos.c:126-152 | The stop flag is set exactly by the requests and cleared exactly by the clears that were not refused |
| FreertosLaws.RunInOrder | shell/ports/freertos/sh_port_freertos.c:78-122 | A run takes its steps in the order of the loop, by the stop flag, the chunk and the status of sh_input, and no other step moves a task |
| FreertosLaws.DrainsOldest | shell/ports/freertos/sh_port_freertos.c:238-242 | The reader of the TX stream takes its oldest bytes, a write appends what the stream took, and no other step moves them |
| FreertosLaws.FeedsItsChunk | shell/ports/freertos/sh_port_freertos.c:90-108 | A receive takes the oldest bytes of the stream, a feed gives exactly that chunk, and nothing else feeds or takes |
| FreertosPort.ResetDuringWrite | shell/ports/freertos/sh_port_freertos.c:238-292 | Such a reset: between the send of one byte and its count, after which the counter says one and no byte has come since |
| FreertosPort.OnlyAStopDrops | shell/ports/freertos/sh_port_freertos.c:97-99 | A chunk is dropped only by a task that has seen the stop flag, and that task then leaves the loop |
| FreertosPort.StopEndsInput | shell/ports/freertos/sh_port_freertos.c:90-117 | After a stop was latched at most one more sh_input call begins |
| FreertosPort.StopLowersRank | shell/ports/freertos/sh_port_freertos.c:86-123 | Under a stop every step of the run brings its task strictly closer to leaving, and no other step matters or clears the stop |
| FreertosPort.StopEndsRun | shell/ports/freertos/sh_port_freertos.c:86-123 | Once a stop is latched, a run that still goes on has taken at most five steps of its own, whatever else happened |
| PortLaws.FreertosFeedsEditor | shell/ports/freertos/sh_port_freertos.c:90-117 | In every interleaving the editor is what the fed bytes make of a fresh one, whichever tasks and runs fed them |
| FreertosPort.StreamWriteReachesStream | shell/ports/freertos/sh_port_freertos.c:210-255 | Through the write of the port the write loop puts data[..total] into the stream in order and once and counts total bytes; OK when that is all and WOULD_BLOCK, after all attempts, otherwise |

## Left out

- ReadersAgree: one direction only; on a line where a backslash does hide a closing quote the readers may agree by luck, and no condition simpler than running both decides it. `ReadersDisagree` shows the condition is needed.
- PartialCompletionIsStable: for command tables and names without quotes and backslashes; a provider may answer differently for the longer prefix, and such names tokenize differently from how they look.
- RunKeeps: distinct neighbours only when all lines are shorter than a slot; `AddKeeps` has the exact condition.
- TcpWriteReachesSocket: the answers of the socket are arbitrary, and nothing but them ends the session between two attempts.
- StreamWriteReachesStream: says nothing about the overflow counter, which counts again what each attempt leaves.
- Everything written to the terminal: prompts, redraws, echo, help, printf formatting, candidate listings and their display cap, and the output of `history`, `echo` and `clear`.
- DisplayIs: on lines the two readers agree about, as for DisplayParsesIff; on others the display may or may not be made from arguments.
- InitShell: a draft that is given while history is disabled has to be longer than the line limit, which `sh_init` does not check and the clearing of the draft relies on.
- Shell.constructor: the same; it is called with what `InitShell` has accepted.
- The erasing of the local buffers parse_buf, history_line and exec_buf: nobody can look at them afterwards.
- NULL arguments of other functions and uninitialised objects: preconditions instead.
- A table whose count runs past its memory: rows are cut at the end of the table's block.
- The 128-byte path string: masks see the resolved names instead.
- Locale effects of `isspace`, and characters beyond a byte.
- Aliasing: the line, draft, history and argv buffers do not overlap, and handlers do not call back into the shell.
- `sh_freertos_run` as one method: its loop is a sequence of atomic steps, because other tasks and interrupts act between any two critical sections; only the sections are methods. Bytes handed to `sh_input` are recorded, and what the shell does with them is the editor's model.
- `sh_input` inside a TCP poll: an arbitrary sequence of writes and closes of the same session with an arbitrary status.
- Blocking time and the size of the streams: how many bytes a stream takes or gives is arbitrary within its contract.
- `sh_stop`: it resets the decoder, as `Ansi.Decoder.Reset` does, and flushes.
- `sh_transport_flush`, `sh_start`, getters, statistics snapshots, status strings and macros: they change none of the state that is modelled.
- The bare-metal port, the host terminals, examples and tools.
