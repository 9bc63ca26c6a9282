# ScarePrank core, modelled in Dafny

ScarePrank is a full-screen prank application: a "security centre"
window that cannot simply be closed, a secret four-digit code that ends
the prank, two helpers (Clue Finder and Trivia Helper) that each reveal
two of its digits, an Emergency quiz that lets the user type the whole
code after ten correct answers, a notepad that types out a "report"
over a rain of binary digits, and a best-effort lookup of the user's
city and country from public IP-location services.

This project models the deterministic logic under the widgets:

- `Text` (`text.dfy`): Python's `str.strip()` (with the exact set of
  characters for which `str.isspace()` holds) and `str.lower()` as far as
  it matters when the other side of a comparison is ASCII.
- `SecretCode` (`secret_code.dfy`): the zero-padded four-digit code.
- `SecretHelpers` (`secret_helpers.dfy`): the split of the code positions
  between the two helpers, and the `*`-masked patterns they show.
- `Quiz` (`quiz.dfy`): answer checking, scoring, the Trivia Helper's
  reveal rule and the Emergency quiz's decision.
- `WindowGuard` (`window_guard.dfy`): the close/minimize guard on the root
  window, as a class whose fields are the counter, the overlay flag and
  the active overlay.
- `Location` (`location.dfy`): the provider-by-provider field selection
  of the IP-location lookup.
- `Animation` (`animation.dfy`): the rain canvas (a class over an array
  of drop heights), the fade's grey level and colour, the header pulse
  and the overlay's dot cycle.
- `Notepad` (`notepad.dfy`): the typing notepad as a class: one character
  per tick, the per-character delay, the close lock until typing ends,
  and the fade that unlocks normal closing.

Randomness (`randint`, `shuffle`, `sample`), dialog answers and network
replies are parameters; the `random.choice` draws feed only the drawing
code, which is left out. Timer callbacks (`after`) are method
calls made by the caller. The delay a callback asks for before the next
callback is part of its result: the next character of the notepad, the
start and each step of its fade, and the next rain frame.

The attempt counter keeps counting while an overlay is open (a third close
attempt leaves it at 3), and the overlay's expiry resets it to 0.

## Model

| member | source | states |
|---|---|---|
| Text.IsSpace | anomaly_001.py:475 | the whitespace test agrees with the list of the 29 characters Python's `str.isspace()` accepts |
| Text.Strip | anomaly_001.py:475 | `strip()` never lengthens its input and leaves no whitespace at either end (StripSpec gives the exact prefix and suffix removed) |
| Text.StripSpec | anomaly_001.py:475 | `strip()` returns the input minus an all-whitespace prefix and suffix, and the result neither starts nor ends with whitespace |
| Text.TrimStartSpec | anomaly_001.py:475 | the leading-whitespace trim drops exactly an all-whitespace prefix and stops at the first non-whitespace character |
| Text.TrimEndSpec | anomaly_001.py:475 | the trailing-whitespace trim drops exactly an all-whitespace suffix and stops at the last non-whitespace character |
| Text.TrimStartPadded | anomaly_001.py:475 | leading whitespace before text that does not start with whitespace is exactly what is trimmed |
| Text.TrimEndPadded | anomaly_001.py:475 | trailing whitespace after text that does not end with whitespace is exactly what is trimmed |
| Text.StripPadded | anomaly_001.py:475 | any whitespace padding around a trimmed string is removed by `strip()`, giving back that string |
| Text.StripIdempotent | anomaly_001.py:475 | stripping twice is the same as stripping once |
| Text.Lower | anomaly_001.py:475 | lower-casing keeps the length |
| Text.LowerCharKeepsSpace | anomaly_001.py:475 | lower-casing a character never changes whether it is whitespace |
| Text.TrimStartLower | anomaly_001.py:475 | trimming leading whitespace commutes with lower-casing |
| Text.TrimEndLower | anomaly_001.py:475 | trimming trailing whitespace commutes with lower-casing |
| Text.StripLowerCommute | anomaly_001.py:475 | `s.strip().lower()` equals `s.lower().strip()` |
| Text.LowerIdempotent | anomaly_001.py:475 | lower-casing twice is the same as once |
| SecretCode.DigitChar | anomaly_001.py:196 | a digit value 0..9 becomes the decimal digit character of that value |
| SecretCode.DigitValue | anomaly_001.py:196 | a digit character's value is in 0..9 and converts back to the same character |
| SecretCode.NewSecretCode | anomaly_001.py:195-196 | for every draw in 0..9999 the code is exactly four ASCII decimal digits whose numeric value is the draw |
| SecretCode.DecimalSplit | anomaly_001.py:196 | the four decimal digits of a number below 10000 recombine to it |
| SecretCode.NewSecretCodeOfValue | anomaly_001.py:195-196 | every four-digit string is the code of its own numeric value, so the codes are exactly the four-digit strings |
| SecretCode.NewSecretCodeInjective | anomaly_001.py:195-196 | distinct draws give distinct codes |
| SecretCode.ZeroPadded | anomaly_001.py:196 | a draw below 1000 still gives four characters, starting with `0` |
| SecretHelpers.Insert | anomaly_001.py:444 | inserting into a sorted list keeps it sorted and adds exactly that element |
| SecretHelpers.SortAscending | anomaly_001.py:444-446 | `sorted` returns an ascending permutation of its input |
| SecretHelpers.Without | anomaly_001.py:446 | the comprehension keeps exactly the positions not taken by the clue positions, each as many times as it occurs in the input |
| SecretHelpers.ShuffleElements | anomaly_001.py:442-443 | a shuffle of `range(4)` holds four distinct positions that together are 0..3 |
| SecretHelpers.NewHelpers | anomaly_001.py:438-446 | the helper keeps the secret; clue and trivia positions are two sorted, disjoint pairs covering 0..3, the clue pair being the first two shuffled positions |
| SecretHelpers.SortTwo | anomaly_001.py:444 | sorting two positions puts the smaller first |
| SecretHelpers.WithoutFirstTwo | anomaly_001.py:446 | removing the clue positions from the shuffle leaves its last two entries, in order |
| SecretHelpers.SplitOfFour | anomaly_001.py:444-446 | four distinct positions 0..3 sorted pairwise form a valid split whose clue pair is the first two |
| SecretHelpers.ClueOfShuffle | anomaly_001.py:444 | the clue positions are the first two shuffled positions, sorted, and exclude the other two |
| SecretHelpers.TriviaOfShuffle | anomaly_001.py:446 | the trivia positions are the last two shuffled positions, sorted |
| SecretHelpers.SplitOfShuffle | anomaly_001.py:442-446 | for every shuffle, the two position lists form a valid split whose clue pair is the first two shuffled positions |
| SecretHelpers.Mask | anomaly_001.py:450-453 | a pattern always has four characters |
| SecretHelpers.BuildPattern | anomaly_001.py:450-453 | the loop that writes digits into `"****"` produces the mask of the listed positions |
| SecretHelpers.SplitInRange | anomaly_001.py:444-446 | every helper position is a valid index into the code |
| SecretHelpers.ClueFinder | anomaly_001.py:448-455 | the Clue Finder shows the mask over the clue positions, the same string on every call |
| SecretHelpers.Overlay | anomaly_001.py:450-453 | laying one pattern over another keeps the length |
| SecretHelpers.MaskShowsPositions | anomaly_001.py:450-453 | a pattern shows a non-`*` character exactly at its positions, and there it is the secret's digit |
| SecretHelpers.MaskDeterminesDigits | anomaly_001.py:450-453 | two secrets give the same pattern iff they agree at the pattern's positions |
| SecretHelpers.MasksRecombine | anomaly_001.py:450-453 | overlaying the clue and trivia patterns, in either order, reproduces the secret |
| SecretHelpers.MasksDisjoint | anomaly_001.py:444-446 | at every position at least one of the two patterns shows `*` |
| SecretHelpers.ExampleMasks | anomaly_001.py:444 | code 4821 with clue positions [0, 3] shows `4**1`; trivia positions [1, 2] show `*82*` |
| Quiz.IsCorrect | anomaly_001.py:475 | for a non-empty expected answer, an answer counts iff it was given and, stripped and lower-cased, equals the lower-cased expected answer; a counting answer, stripped, is as long as the expected one |
| Quiz.Marks | anomaly_001.py:473-476 | one mark per answer |
| Quiz.Count | anomaly_001.py:472-476 | the count of true marks is at most their number, and equals it iff every mark is true |
| Quiz.Score | anomaly_001.py:472-476 | the score lies within [0, number of questions] and is full iff every answer is correct for its question |
| Quiz.CountCorrect | anomaly_001.py:472-476 | the loop's `correct` counter ends equal to the score |
| Quiz.TriviaHelper | anomaly_001.py:457-487 | the trivia pattern is shown iff the score is 5/5, and then it is the mask over the trivia positions; otherwise only a score below 5 is reported |
| Quiz.CodeAccepted | anomaly_001.py:527 | for a non-empty secret, a code is accepted iff one was entered and its stripped form equals the secret |
| Quiz.EmergencyQuizFlow | anomaly_001.py:493-538 | declining runs no quiz; code entry is offered iff no answer is wrong; otherwise `10 - correct` (at least 1) wrong answers are reported; unlocking happens iff the quiz is perfect and the stripped, non-empty code equals the secret |
| Quiz.PaddedAnswerCounts | anomaly_001.py:475 | an answer counts whatever whitespace surrounds it and whatever its case |
| Quiz.BlankAnswerNeverCounts | anomaly_001.py:475 | cancelled, empty and all-whitespace answers never count |
| Quiz.ExactAnswerCounts | anomaly_001.py:475 | typing back a non-empty trimmed answer counts |
| Quiz.TriviaAnswersAccepted | anomaly_001.py:459-470 | every expected answer of the Trivia pool is accepted when typed back |
| Quiz.EmergencyAnswersAccepted | anomaly_001.py:498-514 | every expected answer of the Emergency pool is accepted when typed back |
| Quiz.PaddedCodeAccepted | anomaly_001.py:527 | the secret surrounded by any whitespace unlocks |
| Quiz.OtherCodeRefused | anomaly_001.py:527 | any other four-digit code is refused |
| WindowGuard.Overlay.constructor | anomaly_001.py:549 | a new overlay records its duration |
| WindowGuard.Root.constructor | anomaly_001.py:858 | the guard starts with no attempts and no overlay |
| WindowGuard.Root.ShowOverlayThenReset | anomaly_001.py:544-563 | with an overlay open only that overlay is refocused; otherwise a fresh overlay with the given duration is opened and recorded; the counter is untouched |
| WindowGuard.Root.Escalate | anomaly_001.py:862-868 | the counter goes up by one; the first attempt only warns; later ones open or refocus the single overlay, with a duration of the drawn seconds times 1000; the invariant (at most one overlay, none before a second attempt) is kept |
| WindowGuard.Root.OnCloseAttempt | anomaly_001.py:861-868 | a close attempt behaves as `Escalate` |
| WindowGuard.Root.OnUnmap | anomaly_001.py:873-885 | an unmap leaving the window iconic behaves as a close attempt; any other unmap changes nothing |
| WindowGuard.Root.Finish | anomaly_001.py:593-600 | expiry closes the overlay, forgets it and resets the counter to 0 |
| WindowGuard.ThreeCloseAttempts | anomaly_001.py:858-868 | three close attempts give a warning, one overlay, then a refocus of that same overlay, with the counter at 3 until expiry resets it |
| WindowGuard.AttemptAfterExpiry | anomaly_001.py:593-600 | after expiry the next attempt only warns again |
| Location.Truthy | anomaly_001.py:235-236 | `data.get(key)` is truthy iff the key is present and its value is neither the empty string nor a falsy non-string |
| Location.PickText | anomaly_001.py:235-236 | a truthy string primary field gives its stripped text; otherwise a truthy string fallback gives its stripped text; with neither truthy the result is `""`; the pick fails exactly when the chosen value is not a string; the result is always stripped |
| Location.ObjectLocation | anomaly_001.py:235-240 | a decoded object yields a location iff both picks succeed and the country is non-empty, the city being the picked one (possibly empty) |
| Location.ProviderLocation | anomaly_001.py:226-242 | a provider's location, when it gives one, has a non-empty stripped country and a stripped city |
| Location.FetchIpLocation | anomaly_001.py:217-244 | the result is always a stripped pair with a non-empty country |
| Location.FetchIpLocationCases | anomaly_001.py:225-244 | the result is either `("", "Unknown")` with every provider passed over, or the location of a provider all of whose predecessors were passed over |
| Location.FirstUsableWins | anomaly_001.py:225-242 | the first provider giving a location decides the result |
| Location.AllUnusableGiveUnknown | anomaly_001.py:244 | when no provider gives a location, the result is `("", "Unknown")` |
| Location.CityFallsBackToRegion | anomaly_001.py:235 | a missing or empty `city` falls back to the stripped `region` |
| Location.BlankCityHidesRegion | anomaly_001.py:235-240 | for any object whose `city` is a non-empty all-whitespace string, `region` is ignored whatever it holds, the city comes out empty, and with a country the object yields that country and an empty city |
| Location.NonStringCitySkipsProvider | anomaly_001.py:235-243 | a truthy non-string city makes the provider be passed over |
| Location.UndecodableSkipsProvider | anomaly_001.py:230-240 | a reply that is not JSON yields no location |
| Location.CityAndCountry | anomaly_001.py:235-238 | for any object with a string `city` that is not blank and a picked country, the provider yields the stripped city and that country |
| Animation.GreyLevel | anomaly_001.py:418-420 | the grey level of step i is the integer part of i*60/12, between 0 and 60 |
| Animation.Clamp | anomaly_001.py:420 | the clamp lies in its range and leaves in-range values alone |
| Animation.GreyLevelMonotone | anomaly_001.py:418-420 | the fade only gets lighter, from 0 to 60 |
| Animation.Hex2 | anomaly_001.py:421 | two lower-case hexadecimal digits |
| Animation.HexValue | anomaly_001.py:421 | a hex digit's value is below 16 and maps back to it |
| Animation.HexIndexValue | anomaly_001.py:421 | reading back the digit of a value gives the value |
| Animation.GreyColor | anomaly_001.py:421 | the colour string has seven characters and starts with `#` |
| Animation.GreyColorReadsBack | anomaly_001.py:421 | the colour's three components are equal and each reads back as the grey level |
| Animation.PulseNext | anomaly_001.py:850 | the pulse index stays within the three colours and steps to the next one, wrapping to 0 |
| Animation.PulseCycles | anomaly_001.py:850 | the pulse changes colour on every tick and repeats every three ticks |
| Animation.Dots | anomaly_001.py:582-586 | the dot text on tick i is i mod 4 dots |
| Animation.Columns | anomaly_001.py:277-278 | exactly ten columns below 100 pixels, else one per 10 pixels |
| Animation.DropUpdate | anomaly_001.py:307-309 | a drop falls by its step while it stays within the bottom margin, and restarts at its drawn height once it passes it |
| Animation.AnimatedDrops | anomaly_001.py:294-309 | one update per column |
| Animation.DropStaysInBand | anomaly_001.py:279-309 | a drop inside the band between the highest start and the bottom margin stays there |
| Animation.DropFalls | anomaly_001.py:307-309 | until it passes the bottom margin a drop only moves down |
| Animation.RainCanvas.constructor | anomaly_001.py:272-280 | the canvas holds one drawn drop per column and is not running |
| Animation.RainCanvas.Start | anomaly_001.py:282-284 | starting sets the rain running, moves every drop once and schedules the next frame after `speed` ms |
| Animation.RainCanvas.Stop | anomaly_001.py:286-287 | stopping leaves the drops alone |
| Animation.RainCanvas.Animate | anomaly_001.py:289-310 | when running every drop takes one update and the next frame is scheduled after `speed` ms; when stopped nothing changes and nothing is scheduled; drops stay in the band |
| Notepad.Extra | anomaly_001.py:396 | 160 ms extra after `.`, `!` or `?`, 70 after a newline, none otherwise |
| Notepad.NextDelay | anomaly_001.py:396-397 | the next tick is at least 10 ms away and is the base delay plus the extra unless that is below 10 |
| Notepad.PausesOrdered | anomaly_001.py:396-397 | with a base delay of at least 10 ms, sentence ends pause 160 ms longer and line breaks 70 ms longer than other characters |
| Notepad.FadeDelay | anomaly_001.py:400-401 | fade steps are exactly 20 ms apart for fade times below 240 ms, else the fade time split into twelve |
| Notepad.TypingDelays | anomaly_001.py:396-397 | one delay of at least 10 ms per character |
| Notepad.TypingNotepad.constructor | anomaly_001.py:317-357 | a new notepad shows nothing, is typing, is locked and has its 920x480 rain running with the 35 ms frame delay |
| Notepad.TypingNotepad.TypeNextChar | anomaly_001.py:372-397 | before the end one character is added to the shown text, the index goes up by exactly one and the next tick carries that character's delay; at the end typing stops, the text becomes editable and the fade is due 250 ms later |
| Notepad.TypingNotepad.InertClose | anomaly_001.py:359-370 | the window is destroyed iff typing has stopped |
| Notepad.TypingNotepad.WindowClose | anomaly_001.py:411-412 | the close button destroys the window iff typing has stopped, whether or not the fade has rebound it |
| Notepad.TypingNotepad.FadeStep | anomaly_001.py:403-429 | steps 0..12 draw that step's grey and ask for the next step after the fade delay; the step after stops the canvas and makes closing destroy the window |
| Notepad.TypeAll | anomaly_001.py:372-397 | ticking until typing finishes shows the whole content and asks for exactly one delay per character, each that character's delay |

## Left out

- Drawing and window-manager calls (`Toplevel`, canvas items, fonts, `lift`, `focus_force`, `attributes`, `bring_to_front`, `deiconify`): foreign UI calls; a refocus is only the `Reaction` a guard handler returns.
- Timers (`after`): each callback is a method the caller invokes; the overlay's expiry is the `Finish` event and its duration is recorded on the overlay.
- The 180 ms pause between opening the notepad and typing its first character: a constructor has no result to carry it.
- The three lookup service URLs and their order of trial: the replies are given in that order as the `responses` sequence.
- All random draws: taken as parameters (the shuffle, the question samples, the overlay seconds, the initial drops, steps and restart heights).
- Dialogs (`askyesno`, `askstring`, `showinfo`, `showwarning`, `showerror`): their answers are parameters and their messages are summarised by the result datatypes.
- The network part of the location lookup (`urllib`, timeouts, headers, UTF-8 decoding, `json.loads`): each provider's reply is given as a `Response`.
- `webbrowser`, `getpass`, `os._exit` and the panic key: side-effecting foreign calls; unlocking is the `Unlocked` result.
- The report text the notepad types (`yes_flow`) and the Google Maps tab: string formatting and a browser call outside the modelled core.
- Image glitches and flashes (Pillow, asset paths), the glitch loop and the focus-enforcement loop.
- The dead glitch-style branches (the except-block style switch at lines 162-175 and the style names at line 668).
- Text.Lower: models Python's `str.lower()` only for `A`..`Z` and the KELVIN SIGN, so it is exact only where the other side of the comparison is ASCII, as every expected answer is.
- Animation.GreyLevel: the source's floating-point `int((i / 12) * 60)` is modelled as integer arithmetic, which agrees with it for the steps 0..12 the fade uses.
- Animation.Columns and Notepad.FadeDelay: `int(x / n)` on floats is modelled as integer division truncated toward zero, exact for the integer sizes and times the program uses.
- Exceptions raised by widget calls inside `try` blocks: the model takes the happy path (for instance, a failed text insertion would still advance the notepad index).
