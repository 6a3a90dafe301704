# Conway's Game of Life: run control and argument parsing

This project models the part of the program `main.c` that has logic of its own. The
rest of the program is SDL plumbing, and its rule engine is an empty stub. Two pieces
are modelled:

- `str_to_int`, the decimal parser used for the grid-size arguments. It clears the
  `uint64_t` out-parameter. It refuses a string longer than 19 characters with code 1
  before looking at any character. Otherwise it adds each character's value at its
  decimal place, `(c - '0') * 10^(len - i - 1)`. The first character above `'9'`
  makes it return code 2, with the out-parameter holding the partial sum. The
  string is modelled by the bytes `strlen` counts, as a `seq<byte>`, and the sum by
  exact integers (module `Utilities`, file `StrToInt.dfy`).
- The run flag (`RUNNING` 0x00, `PAUSE` 0x11, `QUIT_GAME` 0xFF) and how it evolves
  (module `Game`, file `Game.dfy`):
  - `event_handler` handles at most one polled SDL event. SDL events are abstracted
    to a window-close event, a key press (Escape, `q` or another key) and any other
    event.
  - The loop of `main` sets the flag to `RUNNING`. It then runs while the flag is not
    `QUIT_GAME`. Each tick handles one poll result, then calls
    `convey_advance_generation` unless the flag is `PAUSE`.
  - `convey_advance_generation` is a stub, so the advance is modelled as a no-op that
    returns 0.

The loop is proved against `Game.Run`, a function giving the final flag, the number
of ticks and the number of advances for a script of poll results. The lemmas about
`Run` say when the loop ends and when it advances. The parser's loop,
`Utilities.ParseDecimal`, takes the per-byte test as a parameter. `StrToInt` gives it
the test as written, and `StrToIntStrict` gives it the digit test the source
evidently intends (see Findings).

`CTypes.dfy` holds the C integer types (`byte`, `uint32`, `uint64`) and `Option`.

## Model

| member | source | states |
|---|---|---|
| `Utilities.ParseDecimal` | main.c:230-258 | The parser's loop, for any per-byte test. `*number` starts at 0. A string longer than 19 bytes gives TooLong and 0 without any byte being tested. Otherwise the loop stops at the first rejected byte `k` with NotANumber, or runs to the end with Ok. In both cases `*number` is the sum of each earlier byte's `(c - 0x30) * 10^(len-i-1)`. |
| `Utilities.StrToInt` | main.c:230-258 | `str_to_int` as written. Over 19 bytes gives code 1 and 0, whatever the bytes are (so a long string with letters gets 1, not 2). For at most 19 bytes, the result is Ok exactly when no byte is above `'9'`, and otherwise NotANumber with the partial sum up to the first such byte. An all-digit string, the empty one included, gives Ok and its decimal value, which is below 2^64. The returned code is 1, 2 or 0 accordingly. |
| `Utilities.StrToIntStrict` | main.c:242-256 | The corrected parser (test `'0' <= c <= '9'`). For at most 19 bytes it returns Ok (code 0) for an all-digit string, with its decimal value, and NotANumber (code 2) for any other. On NotANumber it returns the decimal value of the digits before the first non-digit, scaled by the remaining places. Every result is a uint64_t. |
| `Utilities.FirstRejected` | main.c:242-254 | Where the loop stops: no byte before the index is rejected, and the byte at it is rejected unless it equals the length. |
| `Utilities.FirstRejectedAt` | main.c:242-254 | Any index with all earlier bytes accepted and the byte there rejected (or at the end) is the stopping index. |
| `Utilities.AccumulatedIsScaledPrefix` | main.c:242-249 | After `k` bytes, the place-value sum equals the Horner-rule decimal value of `s[..k]` times `10^(len-k)`. So the sum over the whole string is its decimal value. |
| `Utilities.DecimalValueBounds` | main.c:246-248 | An all-digit string has a value in `[0, 10^len)`. |
| `Utilities.DigitsFitUint64` | main.c:227-236 | A digit string of at most 19 characters has a value below 2^64, so the 19-character limit keeps every accepted all-digit string within `uint64_t`. |
| `Utilities.ScaledPrefixFitsUint64` | main.c:246-253 | The partial value left by digits before a rejected byte is within `uint64_t`. |
| `Utilities.Pow10Add` | main.c:248 | `10^m * 10^n == 10^(m+n)` for the exact powers that replace `pow(10, ...)`. |
| `Utilities.Pow10Fits` | main.c:236 | `10^n < 2^64` for every `n <= 19`. |
| `Utilities.Pow10Nineteen` | main.c:236 | `10^19` is 10000000000000000000. |
| `Utilities.ParseSeesOnlyPrefix` | main.c:246-253 | No byte after the first rejected one is examined. A string of the same length that agrees up to and including that byte stops there with the same partial sum. |
| `Utilities.AccumulatedDependsOnPrefix` | main.c:242-249 | The partial sum after `k` bytes depends only on the length and the first `k` bytes. |
| `Utilities.SignedDigitTestIsAtMostNine` | main.c:246 | The signed test `c - 0x30 <= 9` holds exactly for bytes up to `'9'`, so every byte below `'0'` passes it although it is no digit. |
| `Utilities.SignedDigitTestAcceptsMinusOne` | main.c:246 | `"-1"` is not all digits, and the signed test rejects none of its bytes, so `str_to_int` returns 0 (OK) for it, with the exact sum -29, which no `uint64_t` holds. The strict test rejects its first byte. |
| `Utilities.SignedDigitTestAcceptsOneSlash` | main.c:246-248 | `"1/"` is not all digits, yet the signed test accepts it. Its running sums are 10 and then 9, both non-negative, so C's value agrees with the model's. |
| `Game.EventHandler` | main.c:116-147 | The flag after the call is `Transition` of the flag before it and the polled event. The call returns 0. |
| `Game.QuitFromAnyFlag` | main.c:122-142 | A window-close event or a `q` key press sets `QUIT_GAME`, whatever the flag was. |
| `Game.EscapeToggles` | main.c:132-138 | Escape gives `RUNNING` from `PAUSE` and `PAUSE` from any other flag, including `QUIT_GAME`. From `RUNNING` or `PAUSE`, two presses restore the flag. |
| `Game.OtherInputKeepsFlag` | main.c:120-146 | No pending event, another key or another event type leaves the flag unchanged. |
| `Game.QuitOnlyOnRequest` | main.c:120-146 | From a flag other than `QUIT_GAME`, the handler reaches `QUIT_GAME` exactly on a quit request. |
| `Game.ConveyAdvanceGeneration` | main.c:107-110 | The advance stub returns 0 and changes nothing. |
| `Game.RunGame` | main.c:66-80 | The loop starts with `RUNNING` and handles one poll result per tick. It advances when the flag is not `PAUSE` and stops at `QUIT_GAME`. Its final flag, tick count and advance count equal `Run(Running, polled)`. |
| `Game.Run` | main.c:68-80 | The loop never runs more ticks than there are poll results, and never advances more often than it ticks. It ends with `QUIT_GAME` unless it used up every poll result. |
| `Game.FirstQuitRequest` | main.c:122-142 | The index of the first quit request: there is none before it, and the poll result there is one (unless it is the script's end). |
| `Game.RunEndsAtFirstQuit` | main.c:66-80 | The loop ends with `QUIT_GAME` in the tick that handles the first quit request, after q+1 ticks. That tick still advances, since `QUIT_GAME` is not `PAUSE`: the advance count is one more than that of the q ticks before it. Without a quit request it uses every poll result and never reaches `QUIT_GAME`. |
| `Game.PauseDoesNotAdvance` | main.c:73-80 | While paused and with no Escape or quit request, every tick runs, the flag stays `PAUSE`, and the generation is never advanced. |
| `Game.RunningAdvancesEveryTick` | main.c:66-76 | From `RUNNING` without Escape presses, every tick advances, the quit tick included. |
| `Game.EscapeParity` | main.c:120-147 | Without quit requests the loop uses every poll result. The final flag is the initial one if the Escape count is even, and the other of `RUNNING`/`PAUSE` if it is odd. |
| `Game.FlagCodesDistinct` | main.c:15-17 | The three flag macros have distinct byte values, so modelling the flag as an enumeration loses nothing. |

## Left out

- SDL: initialisation, windows and renderers, `SDL_PollEvent`, `SDL_GetKeyName` and the teardown in `Exit`. These are foreign library calls. Polling is replaced by a script of poll results, `None` meaning no pending event.
- Game.RunGame: the source's loop runs until a quit request arrives. The model's loop also stops when the script of poll results is used up, because a finite script stands in for the event queue.
- Frame pacing (`clock()`, `time_delta`, `SDL_Delay`, the `MSPT` comparisons and the early `return -1`). This is processor time measured by `clock()`, in floating point. Two things in it are not modelled. The branch at main.c:91 fires when a tick took less than 100 × MSPT, the opposite of a stall guard. `time_delta` is in seconds but is compared with milliseconds.
- `Init` and `main`'s argument count check, and the `malloc` sizing of the grids, including the pointer-sized `swp_grid` allocation at main.c:202. This is memory allocation and setup, and no modelled logic uses the buffers.
- `printf`/`fprintf` diagnostics, including the `PAUSED` status line. They are output only.
- The Game of Life rules, neighbour counting, wrap-around and initial patterns. `convey_advance_generation` is an empty stub in this program, so its behaviour is not invented.
- Utilities.StrToInt: models `pow(10, len - i - 1)` and the double-valued `+=` as exact integer arithmetic. The C double path is exact only below 2^53, so for larger all-digit values the C result may differ by rounding.
- Utilities.StrToInt: for a string containing a byte below `'0'`, the contract gives the exact signed sum as `number`. The C program converts the double running sum to `uint64_t` after every byte. Once a running sum goes negative, that conversion is undefined in C, and only the return code agrees with the model. This is the case for `"-1"`, whose first byte adds -30 (model: -29). While every running sum stays non-negative and below 2^53, C produces the same value as the contract. For `"1/"` both give 0 (OK) and 9.
- The C string is taken as the bytes `strlen` counts, so NUL termination is not modelled. `int len` versus `size_t` does not matter, since lengths above 19 return before the loop.

## Findings

| source | as written | input that shows it | evidently intended | confidence | as-written member | corrected member |
|---|---|---|---|---|---|---|
| main.c:246 | `if (c - 0x30 <= 0x9)`: `c - 0x30` is a signed `int`, so every byte below `'0'` passes the digit test | `"-1"`: no code 2 is returned, and the `'-'` adds `-3 * 10` to the sum | reject every byte outside `'0'..'9'` with code 2 ("Not a Number") | high (by proof; not executed) | `Utilities.StrToInt`, `Utilities.SignedDigitTestAcceptsMinusOne` | `Utilities.StrToIntStrict` |
