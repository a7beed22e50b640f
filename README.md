# Ricks-Work core, modelled in Dafny

This project models the core of the TheServer-lab/Ricks-Work collection and proves properties of the model:

- **SoftGUI** (`C++/lib/softgui_win.hpp`): a small retained-mode widget toolkit on Win32. It covers:
  - the widget records and the single-line `Entry` editor;
  - the `parent` chain that `mark_dirty` climbs and `Frame::add_child`;
  - the Tk-like `pack` layout pass;
  - the `Canvas` pixel buffer;
  - the `Window` host: its factories, `pack`/`place`, and the mouse, character, key and size cases of its window procedure.
- **alias.hpp**: the competitive-programming helpers `gcdll`, `lcmll`, `isPrime`, `factorial`, `nCr`, `modpow`, `trim`, `split`, `join`, `toLower` and `toUpper`.
- **simple_calc.cpp**: the expression evaluator behind the calculator. This is the shunting-yard scan into reverse Polish notation (RPN), the RPN evaluation, and the trimming of trailing zeros from the shown result.
- **server1.3.py**: the configuration reader of the game server (`load_config`), `safe_name`, and the room-state merges of the `state` websocket message and `POST /api/room/{room}`.
- **Soft_Image_Viewer.cpp**: panning the picture by dragging, and the pan reset when a picture is loaded.
- **easycpp.hpp**: `clamp`.

## How the model is laid out

| file | module | flavour |
|---|---|---|
| `common.dfy` | `Common` | `Option` |
| `easycpp.dfy` | `EasyCpp` | functions and lemmas |
| `alias_math.dfy` | `AliasMath` | functions; loops as methods proved against them |
| `alias_strings.dfy` | `AliasStrings` | same |
| `simple_calc.dfy` | `SimpleCalc` | specification functions, plus methods that follow the source's loops |
| `server.dfy` | `Server` | functions; a `ServerConfig` class for the globals `load_config` assigns; a `RoomStore` class for `ROOM_DATA` |
| `image_viewer.dfy` | `ImageViewer` | a `Viewer` class for `g_viewer`, proved against a pure `Step` function |
| `softgui_widgets.dfy` | `SoftGuiWidgets` | the widget record and the Entry edits |
| `softgui_tree.dfy` | `SoftGuiTree` | parent chains: acyclicity and the lineage `mark_dirty` visits |
| `softgui_layout.dfy` | `SoftGuiLayout` | the pack pass as a function |
| `softgui_canvas.dfy` | `SoftGuiCanvas` | a `Canvas` class over an `array` |
| `softgui_window.dfy` | `SoftGuiWindow` | the `Window` class |

In SoftGUI, widgets are shared pointers to objects the program mutates in place. The model keeps them in an arena:

- `Window.store` is a sequence of widget records, and a handle is an index into it.
- `widgets_`, `pack_order_` and `focused_entry_` hold handles. The same handle may appear twice, as the same pointer may.
- `Window.parent[h]` is widget `h`'s `parent` pointer.

The window keeps these invariants in `Window.Valid`:

- every parent chain ends;
- `focused_entry_` is an Entry, and it is the only widget that may have `focused` set;
- every caret is within its text.

## Model

| member | source | states |
|---|---|---|
| EasyCpp.Clamp | C++/lib/easycpp/easycpp.hpp:96-98 | The result lies in [lo, hi] when lo <= hi. A value inside is kept, one below goes to lo, one above goes to hi. With lo > hi the result is lo. |
| EasyCpp.ClampIdempotent | C++/lib/easycpp/easycpp.hpp:96-98 | Clamping twice is clamping once. |
| AliasMath.CRem | C++/lib/alias.hpp:55 | C's `%` truncates toward zero: the remainder is smaller than the divisor in magnitude, has the dividend's sign, and a == (a/b)*b + a%b. |
| AliasMath.Gcd | C++/lib/alias.hpp:55 | Euclid's recursion with the C++ remainder; its properties are GcdZero, GcdDividesBoth and GcdGreatest. |
| AliasMath.GcdZero | C++/lib/alias.hpp:55 | gcdll(a, 0) == a, and the gcd is 0 exactly when both inputs are 0. |
| AliasMath.GcdDividesBoth | C++/lib/alias.hpp:55 | For non-negative inputs the gcd is non-negative and divides both. |
| AliasMath.GcdGreatest | C++/lib/alias.hpp:55 | Every common divisor divides the gcd, for inputs of any sign. |
| AliasMath.Lcm | C++/lib/alias.hpp:56 | `a / gcdll(a, b) * b` with C division, defined when one input is non-zero; its properties are LcmCommonMultiple. |
| AliasMath.LcmCommonMultiple | C++/lib/alias.hpp:56 | For positive inputs the lcm is positive and a multiple of both. |
| AliasMath.NoSmallFactorMeansPrime | C++/lib/alias.hpp:58-63 | A number >= 2 with no divisor below i, where i*i > n, is prime: the justification for stopping the trial division at the square root. |
| AliasMath.IsPrime | C++/lib/alias.hpp:58-63 | The loop answers true exactly for primes. |
| AliasMath.Factorial | C++/lib/alias.hpp:65 | The factorial is at least 1, and at least n for n >= 1. |
| AliasMath.FactorialDivisible | C++/lib/alias.hpp:65 | Every k in 1..n divides n!. |
| AliasMath.ChooseAboveIsZero | C++/lib/alias.hpp:67-68 | Choosing more than n gives 0. |
| AliasMath.ChooseAll | C++/lib/alias.hpp:67-76 | C(n, n) == 1. |
| AliasMath.ChooseSymmetric | C++/lib/alias.hpp:69 | C(n, k) == C(n, n-k): the step r = min(r, n-r) does not change the answer. |
| AliasMath.BinomialSymmetric | C++/lib/alias.hpp:67-69 | The same symmetry for every integer pair, out-of-range inputs included. |
| AliasMath.FallingIsChooseTimesFactorial | C++/lib/alias.hpp:70-75 | The numerator the loop builds is C(n, k) times k!, so the final division is exact. |
| AliasMath.NCr | C++/lib/alias.hpp:67-76 | `nCr` returns the binomial coefficient: 0 outside 0 <= r <= n. |
| AliasMath.PowCongruent | C++/lib/alias.hpp:78-86 | Reducing the base modulo m does not change a power modulo m. |
| AliasMath.PowAdd | C++/lib/alias.hpp:78-86 | b^(x+y) == b^x * b^y. |
| AliasMath.PowSquare | C++/lib/alias.hpp:82 | (b*b)^k == b^(2k): squaring the base halves the exponent. |
| AliasMath.PowHalve | C++/lib/alias.hpp:80-84 | One step of the loop keeps the power: b^e == (odd ? b : 1) * (b*b)^(e/2). |
| AliasMath.ModPowStep | C++/lib/alias.hpp:80-84 | The loop invariant r * a^e == a0^e0 (mod m) survives one iteration with C remainders. |
| AliasMath.CongruentRemainder | C++/lib/alias.hpp:85 | A value in [0, m) congruent to x >= 0 is x % m. |
| AliasMath.ModPow | C++/lib/alias.hpp:78-86 | For any non-zero m, negative ones included, the result is exactly C's `a^e % m`: congruent to a^e modulo abs(m), smaller than abs(m) in size, and of the sign of a^e, so a negative base to an odd power gives a non-positive result (modpow(-2, 3, 5) is -3). The one exception is e == 0 with abs(m) == 1, which returns the unreduced 1. |
| AliasMath.CRemSize | C++/lib/alias.hpp:81-83 | The remainder operator used by modpow gives the same value for m and -m, so a negative modulus behaves as abs(m). |
| AliasMath.ModPowEnd | C++/lib/alias.hpp:85 | When the loop ends, a value smaller than abs(m) in size, congruent to a^e and of its sign is the C remainder of a^e by m, which is what modpow returns. |
| AliasStrings.FirstNonSpace | C++/lib/alias.hpp:111 | `find_first_not_of(" \t\n\r")`: every character before the index is trim space, and the one at it is not. |
| AliasStrings.EndNonSpace | C++/lib/alias.hpp:112 | `find_last_not_of` + 1: everything from the index on is trim space, and the character before it is not. |
| AliasStrings.Trim | C++/lib/alias.hpp:110-114 | The result is no longer than the input, and it neither starts nor ends with trim space. It is empty exactly when the input is all trim space. |
| AliasStrings.TrimIsInfix | C++/lib/alias.hpp:110-114 | The result is a contiguous piece of the input, with only trim space before and after it. |
| AliasStrings.TrimIdempotent | C++/lib/alias.hpp:110-114 | Trimming twice is trimming once. |
| Common.IndexOf | C++/lib/alias.hpp:119 | The first occurrence of the delimiter, or the length. |
| AliasStrings.Fields | C++/lib/alias.hpp:117-121 | The text splits into no field exactly when it is empty. |
| AliasStrings.FieldsNoDelimiter | C++/lib/alias.hpp:117-121 | No field holds the delimiter. |
| AliasStrings.GetLine | C++/lib/alias.hpp:119 | One `getline` reads up to the next delimiter and consumes it. What remains splits into the rest of the fields. |
| AliasStrings.Split | C++/lib/alias.hpp:117-121 | `split` returns exactly the fields. |
| AliasStrings.FieldsStep | C++/lib/alias.hpp:119 | A field ends at the delimiter or at the end of the text. |
| AliasStrings.Joined | C++/lib/alias.hpp:124-131 | The items with the separator between neighbours; its properties are JoinedSnoc and JoinFields. |
| AliasStrings.JoinedSnoc | C++/lib/alias.hpp:124-131 | Joining a longer list adds the separator and then the new item. |
| AliasStrings.Join | C++/lib/alias.hpp:124-131 | The loop builds the separator-joined text, which is empty for no items. |
| AliasStrings.JoinFields | C++/lib/alias.hpp:117-131 | join(split(s, d), d) == s when s does not end with d. |
| AliasStrings.JoinFieldsTrailing | C++/lib/alias.hpp:117-131 | When s ends with d, the trailing empty field is dropped by split: join(split(s, d), d) + d == s. |
| AliasStrings.ToLower | C++/lib/alias.hpp:134 | Length is kept. Only A-Z change, each by +32, and no upper-case letter is left. |
| AliasStrings.ToUpper | C++/lib/alias.hpp:137 | Length is kept. Only a-z change, each by -32, and no lower-case letter is left. |
| SimpleCalc.Prec | C++/source/simple_calc.cpp:15-20 | Precedence is 0 exactly for non-operators, and at most 3. |
| SimpleCalc.Message | C++/source/simple_calc.cpp:62-98 | Every error has a non-empty message. |
| SimpleCalc.NumberEnd | C++/source/simple_calc.cpp:32-37 | The end of the maximal number run, where a sign is allowed only right after `e`/`E`. |
| SimpleCalc.IsOpChar | C++/source/simple_calc.cpp:14 | The five operator characters `+ - * / ^`; Prec is non-zero exactly on them. |
| SimpleCalc.PopsBefore | C++/source/simple_calc.cpp:48-49 | The stack top is an operator that binds tighter, or as tight with a left-associative incoming operator; TwoOperators shows its effect. |
| SimpleCalc.UnaryAt | C++/source/simple_calc.cpp:41-45 | A `-` that is first, or follows `(` or an operator character, is unary; LexMinusAfterOperator and LeadingMinus show it. |
| SimpleCalc.Lex | C++/source/simple_calc.cpp:29-68 | The scan from the first character; its properties are LexFacts. |
| SimpleCalc.LexFacts | C++/source/simple_calc.cpp:29-68 | The scan yields numbers starting with a digit or `.`, and operators only for operator characters. Unary marks appear only on `-`. There is at most one bad character; it is last, occurs in the text and cannot start a token. |
| SimpleCalc.PopHigher | C++/source/simple_calc.cpp:48-51 | The pop loop never grows the stack. |
| SimpleCalc.PopHigherShape | C++/source/simple_calc.cpp:48-51 | The popped run of the stack, in order, goes to the output, each popped operator pops before the incoming one, and the rest of the stack is left as it was. |
| SimpleCalc.PopHigherRest | C++/source/simple_calc.cpp:48-51 | What is left on the stack is exactly the part below the popped run. |
| SimpleCalc.PopHigherStopsBelow | C++/source/simple_calc.cpp:48-51 | The loop stops at an empty stack or at the first operator that does not pop before the incoming one. |
| SimpleCalc.PopToParen | C++/source/simple_calc.cpp:55-62 | `)` fails exactly when no `(` is on the stack. Otherwise everything above the nearest `(` goes to the output, and that `(` is removed. |
| SimpleCalc.Drain | C++/source/simple_calc.cpp:69-73 | Draining succeeds exactly when no parenthesis is left, and appends the stack to the output. |
| SimpleCalc.Step | C++/source/simple_calc.cpp:29-67 | A token fails only with a mismatched parenthesis or, for a bad character, with that character. |
| SimpleCalc.Shunt | C++/source/simple_calc.cpp:29-73 | The pass fails only with a mismatched parenthesis or an unexpected character the scan met. |
| SimpleCalc.ScanNumber | C++/source/simple_calc.cpp:32-38 | The inner loop reads exactly the maximal number run. |
| SimpleCalc.PushOperator | C++/source/simple_calc.cpp:40-52 | The operator branch gives the result of one shunting step, with the `"0"` of a unary minus. |
| SimpleCalc.PopOperators | C++/source/simple_calc.cpp:48-51 | The pop loop matches PopHigher. |
| SimpleCalc.PopUntilParen | C++/source/simple_calc.cpp:55-62 | The `)` loop matches PopToParen, and `found` reports whether a `(` was met. |
| SimpleCalc.ScanToken | C++/source/simple_calc.cpp:29-67 | One pass of the scan loop moves forward and keeps the outcome of the whole pass, or reports the pass's error. |
| SimpleCalc.ToRpn | C++/source/simple_calc.cpp:29-73 | The scan loop and the drain compute the RPN of the text or its error. |
| SimpleCalc.DrainOperators | C++/source/simple_calc.cpp:69-73 | The drain loop matches Drain. |
| SimpleCalc.RpnValue | C++/source/simple_calc.cpp:75-105 | Evaluation fails only with a syntax error, a division by zero when a `/` is present, or a bad number token that is present and does not convert. |
| SimpleCalc.EvalRpn | C++/source/simple_calc.cpp:76-103 | The evaluation loop matches RpnValue. |
| SimpleCalc.EvalExpression | C++/source/simple_calc.cpp:22-106 | `ok` holds exactly when evaluation succeeds. The value is then the result and `err` is empty; otherwise the value is 0 and `err` is the error's message. |
| SimpleCalc.DropZeros | C++/source/simple_calc.cpp:179 | Removes exactly the trailing zeros. |
| SimpleCalc.Trimmed | C++/source/simple_calc.cpp:178-181 | The result is a prefix of the text, and only zeros and then one `.` are removed. A text without `.` is kept. |
| SimpleCalc.TrimZeros | C++/source/simple_calc.cpp:178-181 | The trimming loop matches Trimmed. |
| SimpleCalc.StepOk | C++/source/simple_calc.cpp:40-63 | A token passes exactly when it is not bad, and for `)` when a `(` is open. The count of open `(` changes by the token's delta. |
| SimpleCalc.ShuntOk | C++/source/simple_calc.cpp:29-73 | The pass succeeds exactly when the scan has no bad character and the parentheses balance. |
| SimpleCalc.ShuntTokensGood | C++/source/simple_calc.cpp:29-73 | A successful pass outputs only numbers and operators, never a parenthesis. |
| SimpleCalc.ShuntKeepsOperators | C++/source/simple_calc.cpp:29-73 | Every operator of the text reaches the output exactly once. |
| SimpleCalc.ShuntKeepsOperands | C++/source/simple_calc.cpp:29-73 | The operands reach the output in text order. The `"0"` of a unary minus is included. |
| SimpleCalc.RpnOfProperties | C++/source/simple_calc.cpp:22-73 | For any text, the RPN exists exactly when the scan is clean and balanced. It then has no parentheses, holds each operator once and keeps operand order. An unexpected character is one of the text's. |
| SimpleCalc.RpnShape | C++/source/simple_calc.cpp:75-105 | Evaluation succeeds only on a well-formed RPN sequence, and reports a syntax error only on a malformed one. |
| SimpleCalc.Evaluate | C++/source/simple_calc.cpp:22-106 | The RPN pass and then its evaluation, or the first error; its properties are EvaluateProperties. |
| SimpleCalc.EvaluateProperties | C++/source/simple_calc.cpp:22-106 | Each outcome of `eval_expression` is tied to its cause: success, unexpected char, mismatched parenthesis, syntax error, division by zero, bad number. |
| SimpleCalc.TrimmedEnds | C++/source/simple_calc.cpp:178-181 | With one decimal point, the trimmed text ends in neither `.` nor, while the point stays, `0`. |
| SimpleCalc.TrimmedIdempotent | C++/source/simple_calc.cpp:178-181 | Trimming again changes nothing, given at most one decimal point. |
| SimpleCalc.TwoOperators | C++/source/simple_calc.cpp:48-49 | `a p b q c` emits `p` before `c` exactly when `p` pops before `q`: higher precedence, or equal and not `^`. |
| SimpleCalc.LexDigitsAndOperators | C++/source/simple_calc.cpp:45 | In `x p y q z` no operator is unary. |
| SimpleCalc.ProductFirstExample | C++/source/simple_calc.cpp:48-49 | `1+2*3` becomes `1 2 3 * +`. |
| SimpleCalc.LeftAssociativeExample | C++/source/simple_calc.cpp:48-49 | `8-3-2` becomes `8 3 - 2 -`. |
| SimpleCalc.RightAssociativeExample | C++/source/simple_calc.cpp:48-49 | `2^3^2` becomes `2 3 2 ^ ^`. |
| SimpleCalc.LexMinusAfterOperator | C++/source/simple_calc.cpp:45 | A minus right after an operator is scanned as unary. |
| SimpleCalc.MinusAfterOperator | C++/source/simple_calc.cpp:45-52 | `x p -y` is read as `(x p 0) - y`. |
| SimpleCalc.DivideByNegatedExample | C++/source/simple_calc.cpp:88 | So `6/-2` reports a division by zero. |
| SimpleCalc.LeadingMinus | C++/source/simple_calc.cpp:42-44 | A leading minus is unary: `-x` is `0 x -`. |
| SimpleCalc.SpacedMinusScan | C++/source/simple_calc.cpp:45 | After a space the minus is binary, because only the raw previous character is looked at. |
| SimpleCalc.SpacedMinus | C++/source/simple_calc.cpp:80 | So ` -x` is a syntax error. |
| SimpleCalc.UnclosedParenExample | C++/source/simple_calc.cpp:69-71 | `(1` is a mismatched parenthesis. |
| SimpleCalc.UnopenedParenExample | C++/source/simple_calc.cpp:55-62 | `1)` is a mismatched parenthesis. |
| SimpleCalc.UnexpectedCharExample | C++/source/simple_calc.cpp:64-66 | `1$` reports the unexpected `$`. |
| Server.SkipSpaces | Python/Server/server1.3.py:59 | The end of the white-space run at i. |
| Server.BackSpaces | Python/Server/server1.3.py:59 | The start of the white-space run ending at j. |
| Server.Strip | Python/Server/server1.3.py:59-60 | The result is no longer than the text and has no white space at either end. |
| Server.StripKeeps | Python/Server/server1.3.py:59 | A non-space character survives `strip()`. |
| Server.StripWithout | Python/Server/server1.3.py:59 | `strip()` adds no character. |
| Server.StripNoSpace | Python/Server/server1.3.py:110 | A text without white space is unchanged. |
| Server.LowerChar | Python/Server/server1.3.py:67 | Only A-Z change, by +32. |
| Server.UpperChar | Python/Server/server1.3.py:68 | Only a-z change, by -32. |
| Server.Lower | Python/Server/server1.3.py:67 | `lower()` acts character by character. |
| Server.Upper | Python/Server/server1.3.py:68 | `upper()` acts character by character. |
| Server.Filtered | Python/Server/server1.3.py:110 | Only allowed characters remain, no more than there were, and nothing remains exactly when the name holds no allowed character. |
| Server.FilteredSingle | Python/Server/server1.3.py:110 | An allowed character is kept and any other is dropped; with FilteredAppend the filter keeps exactly the allowed characters, in order. |
| Server.FilteredAppend | Python/Server/server1.3.py:110 | Filtering keeps order: it distributes over concatenation. |
| Server.FilteredKeepsSafe | Python/Server/server1.3.py:110 | A safe text passes unchanged. |
| Server.SafeName | Python/Server/server1.3.py:109-110 | The allowed characters of the name, or `DEFAULT_ROOM` when none is left. It is empty only if the default is. |
| Server.SafeNameIdempotent | Python/Server/server1.3.py:109-110 | With a safe default, `safe_name` returns a safe name and is idempotent. |
| Server.SplitOnce | Python/Server/server1.3.py:59 | `split("=", 1)` drops exactly one character. |
| Server.SplitOnceRejoins | Python/Server/server1.3.py:59 | key + `=` + value is the stripped line, and the key holds no `=`. |
| Server.ParseLine | Python/Server/server1.3.py:58-60 | A line with `=` is stripped, split at its first `=`, and key and value are stripped; its properties are ParseLineShape and SplitOnceRejoins. |
| Server.ParseLineShape | Python/Server/server1.3.py:58-60 | A line counts exactly when it holds `=`, and the key it sets holds no `=`. |
| Server.Entries | Python/Server/server1.3.py:57-60 | Each line is read on its own. |
| Server.KeySetter | Python/Server/server1.3.py:55-60 | Every key in `CONFIG` was set by some line. |
| Server.KeyKept | Python/Server/server1.3.py:55-60 | Every key some line sets is in `CONFIG`. |
| Server.Apply | Python/Server/server1.3.py:55-60 | The dict after the first n lines; ApplyStep and LastEntryWins state what each line does. |
| Server.ParsedConfig | Python/Server/server1.3.py:55-60 | The dict after the whole file; its properties are ParsedConfigKeys, LastLineWins and ReadLines. |
| Server.ParsedConfigKeys | Python/Server/server1.3.py:55-60 | The keys of `CONFIG` are exactly the keys of the lines that hold `=`. |
| Server.LastEntryWins | Python/Server/server1.3.py:60 | A key has the value of the last entry that sets it. |
| Server.LastLineWins | Python/Server/server1.3.py:57-60 | A later line with the same key overrides an earlier one. |
| Server.EmptyEntryIgnored | Python/Server/server1.3.py:58 | A skipped line changes nothing. |
| Server.SameEntries | Python/Server/server1.3.py:57-60 | Files that agree on their first n entries read the same up to there. |
| Server.EntriesAppend | Python/Server/server1.3.py:57-60 | Reading two pieces of a file is reading the whole. |
| Server.LineWithoutEqualsIgnored | Python/Server/server1.3.py:58 | A line without `=` may be dropped from anywhere in the file. |
| Server.ReadLine | Python/Server/server1.3.py:58-60 | A line with `=` stores its parsed key and value; any other line leaves the dict alone. |
| Server.ReadLines | Python/Server/server1.3.py:55-60 | The loop over the file builds the configuration dict. |
| Server.Get | Python/Server/server1.3.py:63 | `dict.get`: the stored value, or the default when the key is missing. |
| Server.Flag | Python/Server/server1.3.py:67 | The setting lower-cased is `true`; its meaning is FlagMeaning. |
| Server.FlagMeaning | Python/Server/server1.3.py:67 | A flag is set exactly when its text is `true` in any case. The default applies when the key is missing. |
| Server.ParseInt | Python/Server/server1.3.py:64 | `int()` never accepts a blank text. |
| Server.StripPadded | Python/Server/server1.3.py:59 | `strip()` removes exactly the white space around a text. |
| Server.ParseIntPadded | Python/Server/server1.3.py:64 | A decimal with white space around it reads as its value. |
| Server.ParseIntSigned | Python/Server/server1.3.py:64 | A decimal with a leading `-` or `+` and white space around it reads as its signed value. |
| Server.ParseIntRejects | Python/Server/server1.3.py:64 | A stripped text holding a character that is neither a digit nor a leading sign raises. |
| Server.ParseIntBareSign | Python/Server/server1.3.py:64 | A sign with no digits raises. |
| Server.DecimalValue | Python/Server/server1.3.py:64 | The digits str(n) writes read back as n. |
| Server.ParseIntDecimal | Python/Server/server1.3.py:64 | int(str(n)) == n. |
| Server.LogLevel | Python/Server/server1.3.py:68 | A level name in any case gives its value: CRITICAL and FATAL 50, ERROR 40, WARNING and WARN 30, INFO 20, DEBUG 10, NOTSET 0; any other name gives INFO. |
| Server.LogLevelExamples | Python/Server/server1.3.py:68 | `debug`, `Warn` and `critical` are read in any case, and an unknown name gives INFO. |
| Server.PortSetting | Python/Server/server1.3.py:64 | The port is 8080 without the key, otherwise `int` of the text, with None standing for a raise. |
| Server.UploadMegabytes | Python/Server/server1.3.py:69 | 50 without the key, otherwise `int` of the text. |
| Server.UploadSizeOfDecimal | Python/Server/server1.3.py:69 | A decimal setting of n megabytes reads as n. |
| Server.Reloaded | Python/Server/server1.3.py:63-77 | All assignments run exactly when both numeric settings parse. |
| Server.ReloadedAddress | Python/Server/server1.3.py:63 | The address is always taken, with its default. |
| Server.ReloadedPort | Python/Server/server1.3.py:64-68 | A parsed port sets port, key, browser flag and log level. A raising port keeps all four. |
| Server.ReloadedComplete | Python/Server/server1.3.py:69-77 | On success the upload limit is megabytes * 1048576, and the room, delete, static, CORS, default-room, search and maintenance settings come from the dict with their defaults. |
| Server.ReloadedStopped | Python/Server/server1.3.py:69-77 | When an `int` raises, every setting from the upload limit on keeps its old value. |
| Server.ReloadedDefaults | Python/Server/server1.3.py:63-77 | An empty file gives the documented defaults: 0.0.0.0, 8080, the generated key, browser on, INFO, 50 MiB, `static`, `default`, maintenance off. |
| Server.ServerConfig.LoadConfig | Python/Server/server1.3.py:54-77 | The dict is rebuilt from the file, and the globals become Reloaded of it and of their old values. |
| Server.ServerConfig.Reassign | Python/Server/server1.3.py:63-77 | The assignments run in order, stopping at the first raise. |
| Server.Merged | Python/Server/server1.3.py:183-184 | After the merge the room exists. Payload keys take the payload's values, the room's other keys stay, and other rooms are untouched. |
| Server.MergedIdempotent | Python/Server/server1.3.py:183-184 | Sending the same state twice is sending it once. |
| Server.MergedTwice | Python/Server/server1.3.py:183-184 | Two updates of a room are one update with the later payload winning. |
| Server.UpdateItems | Python/Server/server1.3.py:184 | `update` with items finishes exactly when every item unpacks, and keeps every key already there. |
| Server.UpdateItemsStops | Python/Server/server1.3.py:184 | The items before the first bad one are stored, and the update then raises. |
| Server.UpdateItemsKeeps | Python/Server/server1.3.py:184 | A key no stored item names keeps its value. |
| Server.UpdateItemsLastWins | Python/Server/server1.3.py:184 | Of several items with one key, the last one stored wins. |
| Server.Stored | Python/Server/server1.3.py:183-184 | The room always exists afterwards and other rooms are untouched. An object merges and succeeds. A scalar raises and leaves the room as `setdefault` made it. Items are stored until the first bad one. |
| Server.RoomStore.Update | Python/Server/server1.3.py:183-184 | `ROOM_DATA` and the outcome become Stored of the payload; the item loop stops at the first bad item. |
| Server.RoomStore.OnStateMessage | Python/Server/server1.3.py:182-184 | `ROOM_DATA` and the outcome become Stored of the payload, or of `{}` when the payload is missing. A raise ends the websocket handler. |
| Server.RoomStore.RoomPost | Python/Server/server1.3.py:202-208 | The room name is filtered. A body that is no JSON changes nothing and fails. Otherwise `ROOM_DATA` and the outcome become Stored of the body, and on success the room's dict is returned. |
| Server.JoinedRoom | Python/Server/server1.3.py:174-175 | A join without a name goes to the filtered default room, or to the default itself when it filters to nothing (so to the default when it is safe); otherwise to the filtered name. |
| ImageViewer.Step | C++/source/Soft_Image_Viewer.cpp:46-67 | Button-down starts a drag at the point. Button-up ends it. A move pans only while dragging, and tracks the point. Only moves change the offsets. |
| ImageViewer.MoveShifts | C++/source/Soft_Image_Viewer.cpp:53-63 | A move while dragging shifts the image by exactly the mouse's travel. |
| ImageViewer.Pan | C++/source/Soft_Image_Viewer.cpp:53-63 | Moves keep the drag state, and do nothing when not dragging. |
| ImageViewer.PanTelescopes | C++/source/Soft_Image_Viewer.cpp:53-63 | Over many moves the offsets grow by last point minus the drag's last seen point, whatever the points in between. |
| ImageViewer.DragFromDown | C++/source/Soft_Image_Viewer.cpp:46-63 | After button-down at p0 and moves, the offsets grow by last - p0. |
| ImageViewer.DragRoundTrip | C++/source/Soft_Image_Viewer.cpp:46-63 | Dragging back to the start leaves the image where it was. |
| ImageViewer.ReleasedPanIsIdle | C++/source/Soft_Image_Viewer.cpp:53-67 | After button-up, moves change nothing. |
| ImageViewer.Viewer.constructor | C++/source/Soft_Image_Viewer.cpp:10-15 | The viewer starts with zero offsets, not dragging, at the mouse point (0, 0). |
| ImageViewer.Viewer.OnButtonDown | C++/source/Soft_Image_Viewer.cpp:46-51 | The viewer state becomes Step of button-down. |
| ImageViewer.Viewer.OnMouseMove | C++/source/Soft_Image_Viewer.cpp:53-63 | The viewer state becomes Step of the move, and it repaints exactly while dragging. |
| ImageViewer.Viewer.OnButtonUp | C++/source/Soft_Image_Viewer.cpp:65-68 | The viewer state becomes Step of button-up. |
| ImageViewer.Viewer.OnImageLoaded | C++/source/Soft_Image_Viewer.cpp:91-94 | A picked file resets the offsets to 0. Otherwise nothing changes, and the drag state is kept. |
| SoftGuiWidgets.NewWidget | C++/lib/softgui_win.hpp:29 | A fresh widget is visible and dirty, unpacked, with default pack options, unfocused, caret 0. Canvas takes its size and others are 100x24. Only Label, Entry and Button keep the text. |
| SoftGuiWidgets.SignedChar | C++/lib/softgui_win.hpp:495 | `(char)wParam` is the low byte read as a signed value. |
| SoftGuiWidgets.KeyEdit | C++/lib/softgui_win.hpp:163-180 | A key keeps the caret within the text, and kind, geometry, packing and the dirty flag. Only Enter changes focus. |
| SoftGuiWidgets.BackspaceRemoves | C++/lib/softgui_win.hpp:164-167 | Backspace removes exactly the character before the caret, and the caret steps back. |
| SoftGuiWidgets.BackspaceAtStart | C++/lib/softgui_win.hpp:164-165 | Backspace at position 0 changes nothing. |
| SoftGuiWidgets.InsertPlaces | C++/lib/softgui_win.hpp:174-177 | A printable character lands at the caret, and the caret moves past it; the rest of the text is kept on both sides. |
| SoftGuiWidgets.InsertThenBackspace | C++/lib/softgui_win.hpp:163-180 | Typing a character then backspace restores text and caret. |
| SoftGuiWidgets.ControlKeys | C++/lib/softgui_win.hpp:170-173 | Enter only unfocuses. Other control characters change nothing. |
| SoftGuiWidgets.ArrowKey | C++/lib/softgui_win.hpp:501-515 | Left and right move the caret one step, never past either end. Other keys change nothing. |
| SoftGuiWidgets.RightThenLeft | C++/lib/softgui_win.hpp:501-515 | Right then left restores the caret when it was not at the end. |
| SoftGuiWidgets.ClickEntry | C++/lib/softgui_win.hpp:156-161 | A click focuses the entry and puts the caret at the picked index, cut to the text length. |
| SoftGuiTree.Path | C++/lib/softgui_win.hpp:72 | The walk from h follows parent links and ends at a widget without a parent. |
| SoftGuiTree.Lineage | C++/lib/softgui_win.hpp:72 | The widgets `mark_dirty` visits from a widget whose chain ends. |
| SoftGuiTree.LineageStep | C++/lib/softgui_win.hpp:72 | A widget's lineage is itself, then its parent's lineage. |
| SoftGuiTree.LineageUnique | C++/lib/softgui_win.hpp:72 | Two walks up from the same widget that both end are equal. |
| SoftGuiTree.CutKeepsAcyclic | C++/lib/softgui_win.hpp:296-310 | Clearing a parent pointer, as `pack` and `place` do, keeps every chain finite. |
| SoftGuiTree.LinkKeepsAcyclic | C++/lib/softgui_win.hpp:88-91 | `add_child` keeps every chain finite when the child is not the frame or one of its ancestors. |
| SoftGuiTree.AppendKeepsAcyclic | C++/lib/softgui_win.hpp:284-288 | A new parentless widget keeps the chains finite, and its lineage is itself. |
| SoftGuiLayout.PlaceOne | C++/lib/softgui_win.hpp:383-405 | One packed widget is placed at the cursor. TOP sets x from padx, y at the cursor plus pady, and the width by fill (or 100 for a zero width), and keeps the height; the cursor moves down by h + pady + 8. LEFT is the same on the other axis. |
| SoftGuiLayout.Layout | C++/lib/softgui_win.hpp:380-407 | The store and cursor after the first n entries of the pack order; the widget count is kept. |
| SoftGuiLayout.Laid | C++/lib/softgui_win.hpp:380-407 | The whole pass keeps the number of widgets. |
| SoftGuiLayout.LayoutMovesOnlyPacked | C++/lib/softgui_win.hpp:380-407 | The pass changes only geometry, and only of packed widgets. |
| SoftGuiLayout.LayoutAgrees | C++/lib/softgui_win.hpp:380-407 | During a pass every widget agrees with its start on what placing reads, and only placed ones move. |
| SoftGuiLayout.SecondPass | C++/lib/softgui_win.hpp:380-407 | A second pass runs with the same cursors and puts each widget where the first did. |
| SoftGuiLayout.LayoutIdempotent | C++/lib/softgui_win.hpp:380-407 | Recomputing the layout with unchanged inputs changes nothing. |
| SoftGuiLayout.StackedExample | C++/lib/softgui_win.hpp:394-395 | Three packed TOP widgets of heights 24, 40 and 24 land at y = 10, 42 and 90. |
| SoftGuiCanvas.ColorOf | C++/lib/softgui_win.hpp:25 | Each component is cast to `uint8_t`: congruent mod 256, and equal when already in 0..255. |
| SoftGuiCanvas.Channel | C++/lib/softgui_win.hpp:242-244 | Byte 0 of a pixel is blue, 1 is green and 2 is red. |
| SoftGuiCanvas.PixelInside | C++/lib/softgui_win.hpp:241 | The three bytes of a pixel inside the grid lie inside the buffer. |
| SoftGuiCanvas.Canvas.constructor | C++/lib/softgui_win.hpp:238 | A buffer of w*h*3 zero bytes. |
| SoftGuiCanvas.Canvas.PutPixel | C++/lib/softgui_win.hpp:239-246 | Outside the grid nothing changes and nothing is marked. Inside, exactly the three bytes of the pixel take the colour, in B, G, R order. |
| SoftGuiCanvas.Canvas.Clear | C++/lib/softgui_win.hpp:247-253 | Every byte of the buffer takes its channel of the colour. |
| SoftGuiCanvas.Canvas.ClearRow | C++/lib/softgui_win.hpp:248-250 | One row of the loop: every byte up to the row's end takes its channel of the colour. |
| SoftGuiWindow.Marked | C++/lib/softgui_win.hpp:72 | Only the dirty flags of the listed widgets change. |
| SoftGuiWindow.AtMostOneFocused | C++/lib/softgui_win.hpp:477-486 | Under the window's invariant, no two widgets are focused. |
| SoftGuiWindow.Hit | C++/lib/softgui_win.hpp:470-474 | The hit is a visible widget containing the point in its half-open rectangle, and no later-registered widget does. None means no widget does. |
| SoftGuiWindow.Clicked | C++/lib/softgui_win.hpp:475-486 | A click keeps the number of widgets. |
| SoftGuiWindow.ClickOnEntry | C++/lib/softgui_win.hpp:475-483 | Clicking an Entry makes it the only focused widget and `focused_entry_`. It is dirty, with the caret at the picked index cut to the text. |
| SoftGuiWindow.ClickElsewhere | C++/lib/softgui_win.hpp:484-486 | Clicking anything else leaves no widget focused and no focused entry. |
| SoftGuiWindow.ClickKeepsCarets | C++/lib/softgui_win.hpp:475-486 | A click keeps every caret within its text. |
| SoftGuiWindow.Window.constructor | C++/lib/softgui_win.hpp:272-277 | A window of the given size with no widgets and no focus. |
| SoftGuiWindow.Window.MarkDirty | C++/lib/softgui_win.hpp:72 | Exactly the widget and its ancestors become dirty. |
| SoftGuiWindow.Window.Register | C++/lib/softgui_win.hpp:348-352 | A null pointer is ignored. A widget is appended to both `widgets_` and `pack_order_`. |
| SoftGuiWindow.Window.AddTopLevel | C++/lib/softgui_win.hpp:291-293 | The same as registering. |
| SoftGuiWindow.Window.Make | C++/lib/softgui_win.hpp:284-288 | A fresh widget is appended with no parent and registered; the invariants are kept. |
| SoftGuiWindow.Window.MakeLabel | C++/lib/softgui_win.hpp:284 | A fresh Label with the text, registered. |
| SoftGuiWindow.Window.MakeEntry | C++/lib/softgui_win.hpp:285 | A fresh Entry with the text, registered. |
| SoftGuiWindow.Window.MakeButton | C++/lib/softgui_win.hpp:286 | A fresh Button with the text, registered. |
| SoftGuiWindow.Window.MakeCanvas | C++/lib/softgui_win.hpp:287 | A fresh Canvas of the given size, registered. |
| SoftGuiWindow.Window.MakeFrame | C++/lib/softgui_win.hpp:288 | A fresh Frame, registered. |
| SoftGuiWindow.Window.AddChild | C++/lib/softgui_win.hpp:88-91 | The child's parent becomes the frame, the child is appended to the frame's children, and the invariants are kept. |
| SoftGuiWindow.Window.RecomputeLayout | C++/lib/softgui_win.hpp:380-407 | The loop computes Laid and keeps the invariants. |
| SoftGuiWindow.Window.PlaceWidget | C++/lib/softgui_win.hpp:383-405 | The loop body places one widget as PlaceOne does. |
| SoftGuiWindow.Window.Pack | C++/lib/softgui_win.hpp:296-303 | A null pointer is ignored. Otherwise the widget is packed with the options at top level, and the store becomes the layout of that. |
| SoftGuiWindow.Window.Place | C++/lib/softgui_win.hpp:304-310 | A null pointer is ignored. Otherwise the widget moves to (x, y), is unpacked and made top level. |
| SoftGuiWindow.Window.FindTarget | C++/lib/softgui_win.hpp:470-474 | The reverse scan finds Hit. |
| SoftGuiWindow.Window.OnLButtonDown | C++/lib/softgui_win.hpp:466-492 | With no hit nothing changes. Otherwise store and focus become Clicked for the hit widget, and the invariants are kept. |
| SoftGuiWindow.Window.ClickEntryThenFocus | C++/lib/softgui_win.hpp:475-483 | The Entry branch, in source order, computes Clicked. |
| SoftGuiWindow.Window.OnChar | C++/lib/softgui_win.hpp:493-500 | Without a focused entry nothing changes. Otherwise the entry takes the key's edit and it and its ancestors become dirty. |
| SoftGuiWindow.Window.OnKeyDown | C++/lib/softgui_win.hpp:501-515 | Only the arrows with a focused entry act: they move its caret and mark it and its ancestors dirty. |
| SoftGuiWindow.Window.OnSize | C++/lib/softgui_win.hpp:516-520 | The size comes from the low and high words of `lParam`, and the layout is recomputed. |

## Left out

- Win32 itself is not modelled: window class and handle, painting (`WM_PAINT`, `draw`, double buffering), fonts, caret blink, `InvalidateRect`, `SetCapture`, and the message loop.
- Callbacks (`on_click`, `on_key`, `on_focus`, `on_change`) are user code and are not modelled.
- `Entry::TextIndexFromPos` needs GDI text metrics. The click's resulting index is the parameter `pick`.
- `Canvas` marks itself dirty through `mark_dirty`: PutPixel and Clear return `marked`, and the walk itself is `Window.MarkDirty`. The canvas buffer is not linked to the window's widget record.
- `Canvas` drawing (`StretchDIBits`) and the free factory helpers outside `Window` are not modelled.
- SoftGuiCanvas.Canvas.constructor: takes sizes as naturals. In the source a negative size either makes `resize` throw (one size negative, so w*h*3 is negative) or, with both negative, allocates a buffer that `put_pixel` and `clear` never touch; neither case is modelled.
- SoftGuiWindow.Window.AddChild: requires that the child is not the frame or one of its ancestors. The source accepts such a call, but then `mark_dirty` on the frame never returns. The child is a handle, so the null-pointer crash is not modelled.
- Widgets in `store` are never freed. `shared_ptr` ownership and lifetime are not modelled.
- Integers are unbounded. The `long long` overflow of `factorial`, `nCr` and `modpow`, and the 32-bit `int` geometry and cursor arithmetic, are not modelled.
- AliasMath.ModPow: requires e >= 0 and m != 0. With a negative exponent the source loop never ends (`e >>= 1` stays at -1), and m == 0 is a division by zero. Negative bases and negative moduli are modelled exactly.
- AliasMath.Lcm has no ensures of its own, and requires one non-zero input (the source divides by gcd(0, 0) = 0 otherwise). Its properties are LcmCommonMultiple.
- `randInt`, `randDouble` and `shuffleVec` use a random engine and are not modelled. The file helpers do file I/O and are not modelled.
- AliasStrings and Server take ASCII for `isspace`, `isalnum`, `tolower`, `toupper`, `str.lower` and `str.upper`. Python's Unicode letters, digits and spaces are not modelled, and neither are the underscores and non-ASCII digits `int()` accepts.
- SimpleCalc: `double` arithmetic, `std::stod` and `std::pow` are not modelled. The evaluator is generic over the value type, with `parse`, `isZero` and `arith` as parameters. The fixed-point formatting of the result (`std::setprecision(10)`) is not modelled either; only the trimming after it is.
- Server: file reading, `mkdir`, the config-file watcher, logging setup, HTTP handlers other than the room POST, websockets, broadcast, persistence to disk, and `generate_key` (a parameter `newKey`) are not modelled. Dict ordering is not modelled (maps).
- Server.LogLevel: knows the eight level names of `logging`. An upper-cased name that matches another attribute of the module (such as `BASIC_FORMAT`) is not modelled.
- Server.JoinedRoom: the requested room is a string. A non-string `room` in a join message, which `safe_name` iterates or raises on, is not modelled; neither is a message that is valid JSON but no object.
- Server.UpdateItems: the items of an array payload have string keys. Items whose key is another JSON value are not modelled.
- ImageViewer: zoom is a `float` and is not modelled. Loading the picture, drawing, and the Escape and `O` keys are not modelled.
