# Zazina bot dialog engine

A Dafny model of the per-chat dialog engine of the Zazina Telegram bot. The
engine exists twice, as a Java class (`Tutorial`) and as a Node.js script.
For each chat it walks through a fixed questionnaire: gender, name,
confirmation, birth date, confirmation. It then reduces the day of birth to an
"arcanum" number, sends the matching PDF and offers a consultation.

The model has these modules:

- `Numerology` covers `calculateArcanumNumber`. The specification function is
  `Arcanum`. It is proved equal to the Java loop version (arithmetic digit
  sums in nested `while` loops) and to the JavaScript version (digit sums over
  `toString()`, then `while (sum > 22)`).
- `Validation` covers `isValidName` and the birth-date checks.
  - `isValidName` is modelled as the Java regex `[...]+` with a UTF-16 length
    check, and as the JavaScript regex `^[...]{2,50}$`. Both are proved to
    accept exactly `ValidName`.
  - The `\d{2}\.\d{2}\.\d{4}` date guard is modelled as an anchored pattern
    matcher.
  - The day extraction is modelled twice: Java `split("\\.")[0]` then
    `Integer.parseInt`, and JavaScript `split('.')[0]` then `parseInt`.
- `Artifacts` covers `findArcanumPdf`. The existence check is a predicate
  passed in. File paths are a datatype: gendered, generic and default.
- `Dialog` holds the seven states and one chat's view of the two stores
  (`ChatEntry`). Each handler is one pure step function, and the lemmas
  about the steps live here.
- `Engine` holds the class `DialogEngine`, with the two stores as mutable
  maps: `userStates` maps a chat to its state, and `userData` maps a chat to
  its answers. Every handler method updates the maps in place, as the
  source's `put`, `set` and `storeUserData` do. Each method is proved to do
  three things:
  - apply its `Dialog` step to its own chat;
  - leave every other chat's entries unchanged;
  - keep every chat's reachable-state invariant.

Replies are abstract `Effect` tags, not texts. Two inputs that the source gets
from its environment are parameters here:
- whether a file exists, as `fileExists: PdfPath -> bool`;
- whether Telegram accepted the document, as `delivered: bool`.

`Variant` (`JavaBot` or `JsBot`) switches between the five places where the
two versions differ:

- How `/start` is matched. Java uses `equalsIgnoreCase`, so `/START` and
  `/ſtart` also count: U+017F, the long s, upper-cases to `S`. JavaScript
  requires exactly `/start`.
- A missing "gender" answer. Java throws a NullPointerException out of
  the handler, modelled as the `Fault` effect. JavaScript treats it as "not
  male". `ChatInvariant` proves that this never happens in a reachable chat.
- A document send that fails. Java moves on to WAITING_FOR_MORE in every case.
  JavaScript moves on only inside the send's callback. A rejected
  `sendDocument` never runs that callback, so the chat stays in
  CONFIRM_BIRTHDATE.
- The reply to "yes, tell me more". Java sends two messages, the services
  text and then the contact line (src/main/java/Tutorial/Tutorial.java:240-300).
  JavaScript sends one message that holds both (index.js:254).
- A day field that is not a number. Java's `Integer.parseInt` throws, and the
  handler answers with the date-error reply
  (src/main/java/Tutorial/Tutorial.java:321). JavaScript's `parseInt` gives
  NaN, `calculateArcanumNumber` returns NaN unchanged, and the lookup and the
  send go on with `arcanum_NaN.pdf` (index.js:263-266). The date guard keeps
  such a field out of every reachable chat.

Behaviour of the code that the model keeps and proves:

- Day 29 reduces to 11: 2 + 9 = 11 is already at most 22, so no second pass
  runs.
- The birth-date check is a format check only. There is no calendar check,
  so `31.02.2021` and `00.13.0000` are accepted.
- A day field of `00` gives arcanum 0, outside 1..22. This is shown by
  `DayZeroGivesArcanumZero`. The range 1..22 holds only for days of at
  least 1.
- `findArcanumPdf` returns `default.pdf` without checking that it exists.
  A missing default shows up later, when `sendPdfDocument` replies with the
  "file not found" message. No error is raised by the resolver.
- `/start` restarts the dialog from any state in both versions, and the
  stored answers are kept.

## Model

| member | source | states |
|---|---|---|
| `Numerology.DigitSumBounds` | src/main/java/Tutorial/Tutorial.java:351-356 | the digit sum is at most n, at least 1 for n ≥ 1, and strictly below n for n ≥ 10: the termination argument of the reduction loops |
| `Numerology.Reduce` | src/main/java/Tutorial/Tutorial.java:358-367 | the `while (sum > 22)` loop terminates with a value ≤ 22, and with a value ≥ 1 when the sum it starts from is positive |
| `Numerology.Arcanum` | src/main/java/Tutorial/Tutorial.java:339-370 | for every day ≥ 1 the arcanum lies in [1, 22] |
| `Numerology.ArcanumOfSmallDay` | src/main/java/Tutorial/Tutorial.java:346-348 | a day ≤ 22, of any sign, is returned unchanged |
| `Numerology.OnePassForTwoDigitDays` | src/main/java/Tutorial/Tutorial.java:350-356 | for a two-digit day above 22, one digit-sum pass gives the result: the arcanum is tens + units |
| `Numerology.ArcanumOfLateDays` | src/main/java/Tutorial/Tutorial.java:339-370 | the values for days 23..31, e.g. 23→5, 29→11, 30→3, 31→4 |
| `Numerology.CalculateArcanumNumber` | src/main/java/Tutorial/Tutorial.java:344-370 | the Java nested loops compute `Arcanum(day)`: day itself up to 22, a value in [1, 22] for every day ≥ 1 |
| `Numerology.DecimalString` | index.js:288 | `toString()` of a non-negative integer is a non-empty string of decimal digits whose value is the integer again |
| `Numerology.StringDigitSumAgrees` | index.js:288 | the `split('').reduce(...parseInt...)` digit sum over the decimal string equals the arithmetic digit sum of Java |
| `Numerology.CalculateArcanumNumberJs` | index.js:285-293 | the JavaScript version computes the same `Arcanum(day)` as the Java version, on every integer |
| `Validation.MatchesLetterPlusIsAllLetters` | src/main/java/Tutorial/Tutorial.java:515 | `matches("[A-Za-zА-Яа-яёЁ]+")` holds exactly for non-empty strings of class letters |
| `Validation.Utf16LengthOfLetters` | src/main/java/Tutorial/Tutorial.java:515 | on class letters Java's UTF-16 `length()` is the character count |
| `Validation.JavaIsValidName` | src/main/java/Tutorial/Tutorial.java:514-516 | Java `isValidName` accepts exactly 2..50 characters, every one in A–Z, a–z, А–Я, а–я, ё, Ё |
| `Validation.MatchesLetterRepeatIsBoundedLetters` | index.js:319 | the anchored bounded repetition `^[...]{lo,hi}$` holds exactly for lo..hi class letters |
| `Validation.JsIsValidName` | index.js:318-320 | the JavaScript regex accepts exactly the same names, 2..50 class letters |
| `Validation.NameCheckVersionsAgree` | index.js:318-320 | the Java and the JavaScript name checks agree on every string |
| `Validation.NameExamples` | src/main/java/Tutorial/Tutorial.java:514-516 | "Anna" and "Ёжик" are accepted; "A", "Anna1" and a 51-letter string are rejected |
| `Validation.MatchesPatternPositionwise` | src/main/java/Tutorial/Tutorial.java:124 | an anchored atom pattern matches exactly the strings of its length whose characters match position by position |
| `Validation.DateFormatIsDigitsAndDots` | src/main/java/Tutorial/Tutorial.java:124 | the date guard accepts exactly 10-character strings DD.MM.YYYY of ASCII digits |
| `Validation.DateFormatExamples` | index.js:132 | no calendar check: `31.02.2021` and `00.13.0000` pass, while `5.1.2020` and `01-01-2020` fail |
| `Validation.FieldBeforeDot` | src/main/java/Tutorial/Tutorial.java:320 | the first split field is a dot-free prefix, followed by a dot whenever it is not the whole string |
| `Validation.JavaParseInt` | src/main/java/Tutorial/Tutorial.java:321 | `Integer.parseInt` succeeds only within the 32-bit range |
| `Validation.AcceptedDateDay` | src/main/java/Tutorial/Tutorial.java:320-321 | for an accepted date, split + parseInt never throws, and both versions read the day 10·d0 + d1 in [0, 99] |
| `Artifacts.FirstExistingIndex` | src/main/java/Tutorial/Tutorial.java:378-395 | the lookup stops at the first existing candidate, or at the last one when every earlier candidate is missing |
| `Artifacts.FirstExisting` | src/main/java/Tutorial/Tutorial.java:378-395 | a fallback chain returns one of its candidates, that one exists unless it is the last, and every candidate before it is missing |
| `Artifacts.FindArcanumPdf` | src/main/java/Tutorial/Tutorial.java:378-395 | the resolver is the fallback chain gendered (`m_` for "gender_male", else `f_`) → generic → default |
| `Artifacts.FallbackOrder` | index.js:295-305 | a candidate is passed over exactly when it is missing, and the resolved file exists iff one of the three candidates exists |
| `Dialog.NewChatSatisfiesInvariant` | src/main/java/Tutorial/Tutorial.java:69 | a chat with no entries is read as START and satisfies the invariant |
| `Dialog.TextStepKeepsInvariant` | src/main/java/Tutorial/Tutorial.java:60-136 | text handling keeps the invariant and never reaches the null dereference of line 128 |
| `Dialog.CallbackStepKeepsInvariant` | src/main/java/Tutorial/Tutorial.java:142-228 | button handling keeps the invariant, never reaches the null dereferences of lines 199 and 380, and never produces the date-error reply |
| `Dialog.JavaFaultsWithoutGender` | src/main/java/Tutorial/Tutorial.java:125-132 | in any chat awaiting a birth date without a stored gender, the Java date handler stores a well-formed date, throws, and leaves the state unchanged |
| `Dialog.StepsWriteOnlyAnswerKeys` | src/main/java/Tutorial/Tutorial.java:447-449 | a step removes no answer and adds no key other than "gender", "name" and "birthdate" |
| `Dialog.StartCommandMatching` | index.js:40-41 | JavaScript matches exactly "/start"; every such match is a Java match, and Java also takes "/START", "/Start" and the long s |
| `Dialog.StartCommandRestarts` | src/main/java/Tutorial/Tutorial.java:72-76 | `/start` moves any state to WAITING_FOR_GENDER, asks for the gender, and leaves the answers untouched |
| `Dialog.InputsAreNotStartCommands` | src/main/java/Tutorial/Tutorial.java:72-84 | no valid name and no well-formed date is taken for `/start` |
| `Dialog.OtherTextChangesNothing` | src/main/java/Tutorial/Tutorial.java:85-88 | text outside the two input states changes nothing and gets the "don't understand" reply |
| `Dialog.NameInputOutcome` | src/main/java/Tutorial/Tutorial.java:104-114 | a valid name is stored and the state moves to CONFIRM_NAME; an invalid one changes nothing |
| `Dialog.BirthdateInputOutcome` | index.js:131-155 | a well-formed date is stored and the state moves to CONFIRM_BIRTHDATE; anything else changes nothing |
| `Dialog.CallbackOutsideButtonStates` | src/main/java/Tutorial/Tutorial.java:153-166 | a button in START, WAITING_FOR_NAME or WAITING_FOR_BIRTHDATE changes nothing and sends nothing |
| `Dialog.GenderSelectionOutcome` | index.js:89-93 | the gender button stores the raw token and moves to WAITING_FOR_NAME |
| `Dialog.NameConfirmationOutcome` | src/main/java/Tutorial/Tutorial.java:196-207 | "confirm_yes" moves to WAITING_FOR_BIRTHDATE; any other token returns to WAITING_FOR_NAME and keeps the answers |
| `Dialog.BirthdateRejectionOutcome` | src/main/java/Tutorial/Tutorial.java:224-227 | a token other than "confirm_yes" returns to WAITING_FOR_BIRTHDATE and keeps the answers |
| `Dialog.JavaBirthdateConfirmationAdvances` | src/main/java/Tutorial/Tutorial.java:215-228 | Java: "confirm_yes" on the date always reaches WAITING_FOR_MORE and asks about more information last |
| `Dialog.JsBirthdateConfirmationAdvancesUnlessRejected` | index.js:157-185 | JavaScript: "confirm_yes" reaches WAITING_FOR_MORE unless the resolved file exists and its send is rejected, in which case nothing changes |
| `Dialog.MoreInfoKeepsState` | src/main/java/Tutorial/Tutorial.java:236-310 | WAITING_FOR_MORE never changes the chat; it replies with the offer or the farewell |
| `Dialog.ReachableDelivery` | src/main/java/Tutorial/Tutorial.java:317-337 | from a reachable chat no exception is raised, and both versions send the same resolved file for the arcanum of the day field |
| `Dialog.DayZeroGivesArcanumZero` | src/main/java/Tutorial/Tutorial.java:320-324 | the accepted date `00.01.2000` is delivered under arcanum 0 |
| `Dialog.FullDialogOutcome` | index.js:36-69 | from any state, /start, gender, valid name, yes, well-formed date, yes stores all three answers and reaches WAITING_FOR_MORE (JavaScript: unless the send is rejected) |
| `Dialog.FinalConfirmation` | index.js:157-179 | the last step of a full dialog delivers the arcanum of the stored day and moves on as the variant prescribes |
| `Engine.DialogEngine.constructor` | src/main/java/Tutorial/Tutorial.java:32-35 | both stores start empty and the invariant holds |
| `Engine.DialogEngine.GetUserData` | src/main/java/Tutorial/Tutorial.java:457-459 | the stored value when the chat and the key are present, None (null) otherwise |
| `Engine.DialogEngine.StoreUserData` | src/main/java/Tutorial/Tutorial.java:447-449 | creates the chat's answer map if needed, sets one key, and touches nothing else |
| `Engine.DialogEngine.HandleText` | src/main/java/Tutorial/Tutorial.java:60-96 | applies the text step to this chat only; other chats unchanged; invariant kept; no fault |
| `Engine.DialogEngine.HandleNameInput` | src/main/java/Tutorial/Tutorial.java:104-114 | performs the name-input step on this chat's entries only |
| `Engine.DialogEngine.HandleBirthdateInput` | src/main/java/Tutorial/Tutorial.java:122-136 | performs the birth-date-input step on this chat's entries only |
| `Engine.DialogEngine.HandleCallback` | src/main/java/Tutorial/Tutorial.java:142-176 | applies the button step to this chat only; other chats unchanged; invariant kept; no fault |
| `Engine.DialogEngine.HandleGenderSelection` | src/main/java/Tutorial/Tutorial.java:184-188 | stores the gender token and moves to WAITING_FOR_NAME, this chat only |
| `Engine.DialogEngine.HandleNameConfirmation` | src/main/java/Tutorial/Tutorial.java:196-207 | performs the name-confirmation step; the answers are untouched |
| `Engine.DialogEngine.HandleBirthdateConfirmation` | src/main/java/Tutorial/Tutorial.java:215-228 | performs the birth-date-confirmation step; the answers are untouched |
| `Engine.DialogEngine.HandleMoreInfoRequest` | index.js:186-259 | replies with the offer or the farewell and writes no state |
| `Engine.DialogEngine.SendArcanumDocument` | src/main/java/Tutorial/Tutorial.java:317-337 | the Java delivery: every exception on the way becomes the date-error reply; otherwise the resolved file is sent if it exists |
| `Engine.DialogEngine.SendArcanumDocumentJs` | index.js:261-283 | the JavaScript delivery, and whether its callback runs: after a resolved send, a missing file or a caught error, but not after a rejected send |

## Left out

- Telegram transport (`execute`, `bot.sendMessage`, `bot.sendDocument`): replies are `Effect` tags. Text replies are assumed delivered, since the source only logs their failures. Document delivery is the `delivered` input.
- Keyboards, prompt texts and the marketing message: they are tags.
- The file system and the path literals: `fileExists` is a parameter and paths are the `PdfPath` datatype.
- Token and environment loading, bot start-up and console logging: these are configuration and I/O.
- Promise timing and double presses in the JavaScript bot: each send is one atomic step with an outcome. This is concurrency, not dialog logic.
- Non-text messages: the Java bot filters them out before `handleTextMessage`, and the model takes text messages only.
- Usage counters, persistence and calendar validity: neither source file has them.
- What the Telegram library does after an uncaught exception: the handler ends with the `Fault` effect and leaves the stores as they are at that point.
- Engine.DialogEngine.HandleMoreInfoRequest: a failed first send in Java skips the contact message. Message-send failures are not modelled, so `ContactLink` always follows `OfferDetails`.
- Validation.JsParseInt: leading white space and the `0x` prefix of JavaScript `parseInt` are not modelled. In reachable chats it only ever reads the two ASCII digits of a stored date (`AcceptedDateDay`).
- Validation.JavaParseInt: the non-ASCII decimal digits that `Integer.parseInt` also accepts are not modelled. They cannot reach it from a reachable chat.
- Numerology.CalculateArcanumNumberJs: JavaScript numbers are doubles. Precision loss above 2^53, and the exponent notation of `toString()` from 1e21 on, are not modelled. Days here are at most 99.
- Numerology.CalculateArcanumNumber: the parameter is an unbounded integer, not a 32-bit `int`. This changes nothing: a digit sum never exceeds its argument, so no intermediate value can overflow.
