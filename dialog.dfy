/**
 * The per-chat dialog state machine, as pure functions over one chat's view
 * of the two stores. `Engine.DialogEngine` holds the stores and applies these
 * steps in place; the lemmas here state what the steps promise.
 *
 * The Java bot and the JavaScript bot run the same machine. `Variant`
 * switches between them where they differ:
 *   - `/start` is matched ignoring case in Java and exactly in JavaScript;
 *   - a missing "gender" makes Java throw a NullPointerException out of the
 *     handler (the `Fault` effect), while JavaScript reads it as "not male";
 *   - after "confirm_yes" on the birth date Java always moves on, while
 *     JavaScript moves on only in the callback of the document send, which a
 *     rejected send never runs.
 * Replies are tags; the prompt texts and keyboards are not modelled.
 */
module Dialog {

  import opened Wrappers
  import opened Numerology
  import opened Validation
  import opened Artifacts

  /** The seven dialog states (`UserState`). */
  datatype UserState =
    | Start
    | WaitingForGender
    | WaitingForName
    | ConfirmName
    | WaitingForBirthdate
    | ConfirmBirthdate
    | WaitingForMore

  datatype Variant = JavaBot | JsBot

  type ChatId = int

  /** One chat's stored answers, keyed "gender", "name" and "birthdate". */
  type Fields = map<string, string>

  const GenderKey: string := "gender"
  const NameKey: string := "name"
  const BirthdateKey: string := "birthdate"
  const AnswerKeys: set<string> := {GenderKey, NameKey, BirthdateKey}

  const StartCommand: string := "/start"
  const ConfirmYes: string := "confirm_yes"
  const MaleToken: string := "gender_male"

  /** What a handler sends back, in order. */
  datatype Effect =
    | AskGender                                   // greeting with the two gender buttons
    | AskName
    | ConfirmNamePrompt(name: string)
    | InvalidName
    | AskBirthdate(male: bool)
    | ConfirmBirthdatePrompt(male: bool, date: string)
    | InvalidBirthdate
    | RetryName
    | RetryBirthdate
    | NotUnderstood
    | Document(path: PdfPath, arcanum: Label)    // the PDF, captioned with the arcanum
    | FileNotFound
    | DateError                                   // an exception caught while deriving the document
    | DocumentSendFailed
    | AskMoreInfo
    | OfferDetails
    | ContactLink
    | Farewell
    | Fault                                       // an uncaught NullPointerException ends the handler

  /** One chat's entries in `userStates` and `userData`; None where the store has no entry. */
  datatype ChatEntry = ChatEntry(state: Option<UserState>, fields: Option<Fields>)
  {
    /** `userStates.getOrDefault(chatId, START)` */
    function Current(): UserState
    {
      if state.Some? then state.value else Start
    }

    /** The chat's answers, empty when it has none yet. */
    function Answers(): Fields
    {
      if fields.Some? then fields.value else map[]
    }

    /** `getUserData(chatId, key)`: None where Java returns null and JavaScript undefined. */
    function Get(key: string): (r: Option<string>)
      ensures r.Some? <==> key in Answers()
      ensures r.Some? ==> r.value == Answers()[key]
    {
      if key in Answers() then Some(Answers()[key]) else None
    }

    /** `storeUserData(chatId, key, value)`: creates the chat's answer map on first use. */
    function Put(key: string, value: string): ChatEntry
    {
      this.(fields := Some(Answers()[key := value]))
    }

    /** `userStates.put(chatId, s)` */
    function SetState(s: UserState): ChatEntry
    {
      this.(state := Some(s))
    }
  }

  /** A chat that has never written to either store. */
  const NewChat: ChatEntry := ChatEntry(None, None)

  datatype Transition = Transition(entry: ChatEntry, effects: seq<Effect>)

  // ---- Text messages ----

  /** Java `equalsIgnoreCase` against a lower-case character of "/start": the
      character itself, its ASCII capital, and for 's' also U+017F (long s),
      whose upper case is 'S'. */
  predicate SameIgnoringCase(c: char, lower: char)
  {
    || c == lower
    || ('a' <= lower <= 'z' && c as int == lower as int - 32)
    || (lower == 's' && c == '\U{017F}')
  }

  predicate IsStartCommand(v: Variant, text: string)
  {
    match v
    case JavaBot => |text| == |StartCommand| && forall i :: 0 <= i < |text| ==> SameIgnoringCase(text[i], StartCommand[i])
    case JsBot => text == StartCommand
  }

  predicate IsValidNameFor(v: Variant, s: string)
  {
    match v
    case JavaBot => JavaIsValidName(s)
    case JsBot => JsIsValidName(s)
  }

  /** `handleTextMessage` / `bot.on('message')`: `/start` first, then by state. */
  function TextStep(v: Variant, e: ChatEntry, text: string): Transition
  {
    if IsStartCommand(v, text) then Transition(e.SetState(WaitingForGender), [AskGender])
    else
      match e.Current()
      case WaitingForName => NameInput(v, e, text)
      case WaitingForBirthdate => BirthdateInput(v, e, text)
      case _ => Transition(e, [NotUnderstood])
  }

  /** `handleNameInput` */
  function NameInput(v: Variant, e: ChatEntry, name: string): Transition
  {
    if IsValidNameFor(v, name) then
      Transition(e.Put(NameKey, name).SetState(ConfirmName), [ConfirmNamePrompt(name)])
    else
      Transition(e, [InvalidName])
  }

  /** `handleBirthdateInput`: the date is stored before the gender is read, so
      in Java a missing gender leaves the date stored and the state unchanged. */
  function BirthdateInput(v: Variant, e: ChatEntry, date: string): Transition
  {
    if !IsDateFormat(date) then Transition(e, [InvalidBirthdate])
    else
      var stored := e.Put(BirthdateKey, date);
      var gender := stored.Get(GenderKey);
      match v
      case JavaBot =>
        if gender.None? then Transition(stored, [Fault])
        else Transition(stored.SetState(ConfirmBirthdate), [ConfirmBirthdatePrompt(gender.value == MaleToken, date)])
      case JsBot =>
        Transition(stored.SetState(ConfirmBirthdate), [ConfirmBirthdatePrompt(gender == Some(MaleToken), date)])
  }

  // ---- Button callbacks ----

  /** `handleCallbackQuery` / `bot.on('callback_query')`: four states answer a
      button; in the other three nothing happens and nothing is sent. */
  function CallbackStep(v: Variant, e: ChatEntry, token: string, fileExists: PdfPath -> bool, delivered: bool): Transition
  {
    match e.Current()
    case WaitingForGender => GenderSelection(e, token)
    case ConfirmName => NameConfirmation(v, e, token)
    case ConfirmBirthdate => BirthdateConfirmation(v, e, token, fileExists, delivered)
    case WaitingForMore => MoreInfoRequest(v, e, token)
    case _ => Transition(e, [])
  }

  /** `handleGenderSelection`: the raw token is stored as the gender. */
  function GenderSelection(e: ChatEntry, token: string): Transition
  {
    Transition(e.Put(GenderKey, token).SetState(WaitingForName), [AskName])
  }

  /** `handleNameConfirmation` */
  function NameConfirmation(v: Variant, e: ChatEntry, token: string): Transition
  {
    if token == ConfirmYes then
      var gender := e.Get(GenderKey);
      match v
      case JavaBot =>
        if gender.None? then Transition(e, [Fault])
        else Transition(e.SetState(WaitingForBirthdate), [AskBirthdate(gender.value == MaleToken)])
      case JsBot =>
        Transition(e.SetState(WaitingForBirthdate), [AskBirthdate(gender == Some(MaleToken))])
    else
      Transition(e.SetState(WaitingForName), [RetryName])
  }

  /** Java `sendPdfDocument`: nothing is sent when the file is missing. */
  function SendPdfDocument(path: PdfPath, arcanum: Label, fileExists: PdfPath -> bool, delivered: bool): seq<Effect>
  {
    if !fileExists(path) then [FileNotFound]
    else if delivered then [Document(path, arcanum)]
    else [DocumentSendFailed]
  }

  /** Java `sendArcanumDocument`. Every failure on the way (a null date, an
      empty split, a bad number, a null gender in `findArcanumPdf`) is an
      exception caught at its end. */
  function JavaArcanumDelivery(birthDate: Option<string>, gender: Option<string>, fileExists: PdfPath -> bool, delivered: bool): seq<Effect>
  {
    if birthDate.None? then [DateError]
    else
      match JavaDay(birthDate.value)
      case None => [DateError]
      case Some(day) =>
        if gender.None? then [DateError]
        else
          var arcanum := Num(Arcanum(day));
          SendPdfDocument(FindArcanumPdf(arcanum, gender.value == MaleToken, fileExists), arcanum, fileExists, delivered)
  }

  /** The effects of the JavaScript `sendArcanumDocument` and whether it runs its callback. */
  datatype Delivery = Delivery(effects: seq<Effect>, callbackRuns: bool)

  /** JavaScript `calculateArcanumNumber` lifted to NaN, which it returns unchanged. */
  function JsArcanumLabel(day: Option<int>): Label
  {
    if day.Some? then Num(Arcanum(day.value)) else NotANumber
  }

  /** JavaScript `sendArcanumDocument`: the callback runs after a resolved send,
      when the file is missing, and after a caught exception; a rejected send
      never runs it. */
  function JsArcanumDelivery(birthDate: Option<string>, gender: Option<string>, fileExists: PdfPath -> bool, delivered: bool): Delivery
  {
    if birthDate.None? then Delivery([DateError], true)
    else
      var arcanum := JsArcanumLabel(JsDay(birthDate.value));
      var path := FindArcanumPdf(arcanum, gender == Some(MaleToken), fileExists);
      if !fileExists(path) then Delivery([FileNotFound], true)
      else if delivered then Delivery([Document(path, arcanum)], true)
      else Delivery([], false)
  }

  /** `handleBirthdateConfirmation` */
  function BirthdateConfirmation(v: Variant, e: ChatEntry, token: string, fileExists: PdfPath -> bool, delivered: bool): Transition
  {
    if token != ConfirmYes then Transition(e.SetState(WaitingForBirthdate), [RetryBirthdate])
    else
      var birthDate := e.Get(BirthdateKey);
      var gender := e.Get(GenderKey);
      match v
      case JavaBot =>
        Transition(e.SetState(WaitingForMore), JavaArcanumDelivery(birthDate, gender, fileExists, delivered) + [AskMoreInfo])
      case JsBot =>
        var d := JsArcanumDelivery(birthDate, gender, fileExists, delivered);
        if d.callbackRuns then Transition(e.SetState(WaitingForMore), d.effects + [AskMoreInfo])
        else Transition(e, d.effects)
  }

  /** `handleMoreInfoRequest`: the offer (Java sends the contact separately) or the farewell. */
  function MoreInfoRequest(v: Variant, e: ChatEntry, token: string): Transition
  {
    if token == ConfirmYes then
      Transition(e, match v case JavaBot => [OfferDetails, ContactLink] case JsBot => [OfferDetails])
    else
      Transition(e, [Farewell])
  }

  // ---- What the steps promise ----

  /** What every reachable chat satisfies, and why `getUserData` never returns
      null where a handler dereferences it: the only keys are the three answers,
      a stored name is valid, a stored birth date is well formed, and the answers
      a state reads have been stored before it is entered. */
  predicate ChatInvariant(e: ChatEntry)
  {
    && e.Answers().Keys <= AnswerKeys
    && (e.Get(NameKey).Some? ==> ValidName(e.Get(NameKey).value))
    && (e.Get(BirthdateKey).Some? ==> IsDateFormat(e.Get(BirthdateKey).value))
    && (e.Current() !in {Start, WaitingForGender} ==> e.Get(GenderKey).Some?)
    && (e.Current() in {ConfirmName, WaitingForBirthdate, ConfirmBirthdate, WaitingForMore} ==> e.Get(NameKey).Some?)
    && (e.Current() in {ConfirmBirthdate, WaitingForMore} ==> e.Get(BirthdateKey).Some?)
  }

  lemma NewChatSatisfiesInvariant()
    ensures ChatInvariant(NewChat) && NewChat.Current() == Start
  {
  }

  /** A text message keeps the invariant, and from a reachable chat it never faults. */
  lemma TextStepKeepsInvariant(v: Variant, e: ChatEntry, text: string)
    requires ChatInvariant(e)
    ensures ChatInvariant(TextStep(v, e, text).entry)
    ensures Fault !in TextStep(v, e, text).effects
  {
  }

  /** A button press keeps the invariant, and from a reachable chat it neither faults
      nor hits an exception that the delivery catches (the date-error reply). */
  lemma CallbackStepKeepsInvariant(v: Variant, e: ChatEntry, token: string, fileExists: PdfPath -> bool, delivered: bool)
    requires ChatInvariant(e)
    ensures ChatInvariant(CallbackStep(v, e, token, fileExists, delivered).entry)
    ensures Fault !in CallbackStep(v, e, token, fileExists, delivered).effects
    ensures DateError !in CallbackStep(v, e, token, fileExists, delivered).effects
  {
    if e.Current() == ConfirmBirthdate && token == ConfirmYes {
      ReachableDelivery(e, fileExists, delivered);
    }
  }

  /** The Java faults are real outside the invariant: a chat in WAITING_FOR_BIRTHDATE
      without a gender answer faults on a well-formed date and keeps its state. */
  lemma JavaFaultsWithoutGender(e: ChatEntry, date: string)
    requires e.Current() == WaitingForBirthdate && e.Get(GenderKey).None? && IsDateFormat(date)
    ensures TextStep(JavaBot, e, date) == Transition(e.Put(BirthdateKey, date), [Fault])
  {
    InputsAreNotStartCommands(JavaBot, date);
  }

  /** The answer keys a step may add are the three answers; no answer is ever removed. */
  lemma StepsWriteOnlyAnswerKeys(v: Variant, e: ChatEntry, text: string, token: string, fileExists: PdfPath -> bool, delivered: bool)
    ensures var after := TextStep(v, e, text).entry;
      e.Answers().Keys <= after.Answers().Keys <= e.Answers().Keys + AnswerKeys
    ensures var after := CallbackStep(v, e, token, fileExists, delivered).entry;
      e.Answers().Keys <= after.Answers().Keys <= e.Answers().Keys + AnswerKeys
  {
  }

  /** How the two versions match `/start`: every exact match is a Java match;
      Java also takes other letter cases, and the long s. */
  lemma StartCommandMatching(text: string)
    ensures IsStartCommand(JsBot, text) <==> text == "/start"
    ensures IsStartCommand(JsBot, text) ==> IsStartCommand(JavaBot, text)
    ensures IsStartCommand(JavaBot, "/START") && !IsStartCommand(JsBot, "/START")
    ensures IsStartCommand(JavaBot, "/Start") && IsStartCommand(JavaBot, "/\U{017F}tart")
    ensures !IsStartCommand(JavaBot, "start") && !IsStartCommand(JavaBot, "/stop!")
  {
    assert "/stop!"[3] == 'o' && StartCommand[3] == 'a';
    assert !SameIgnoringCase("/stop!"[3], StartCommand[3]);
  }

  /** `/start`, in any state, moves to WAITING_FOR_GENDER and leaves the answers untouched. */
  lemma StartCommandRestarts(v: Variant, e: ChatEntry, text: string)
    requires IsStartCommand(v, text)
    ensures TextStep(v, e, text).entry.Current() == WaitingForGender
    ensures TextStep(v, e, text).entry.fields == e.fields
    ensures TextStep(v, e, text).effects == [AskGender]
  {
  }

  /** Names and dates never look like `/start`: both validators reject '/'. */
  lemma InputsAreNotStartCommands(v: Variant, s: string)
    ensures ValidName(s) ==> !IsStartCommand(v, s)
    ensures IsDateFormat(s) ==> !IsStartCommand(v, s)
  {
    if IsStartCommand(v, s) {
      assert s[0] == '/';
      assert !IsNameLetter(s[0]);
      assert |s| == 6;
      DateFormatIsDigitsAndDots(s);
    }
  }

  /** Text other than `/start` outside the two input states changes nothing. */
  lemma OtherTextChangesNothing(v: Variant, e: ChatEntry, text: string)
    requires !IsStartCommand(v, text)
    requires e.Current() !in {WaitingForName, WaitingForBirthdate}
    ensures TextStep(v, e, text) == Transition(e, [NotUnderstood])
  {
  }

  /** In WAITING_FOR_NAME a valid name is stored and confirmation asked;
      anything else (but `/start`) changes nothing. */
  lemma NameInputOutcome(v: Variant, e: ChatEntry, text: string)
    requires e.Current() == WaitingForName && !IsStartCommand(v, text)
    ensures ValidName(text) ==> TextStep(v, e, text) == Transition(e.Put(NameKey, text).SetState(ConfirmName), [ConfirmNamePrompt(text)])
    ensures !ValidName(text) ==> TextStep(v, e, text) == Transition(e, [InvalidName])
  {
  }

  /** In WAITING_FOR_BIRTHDATE a well-formed date is stored and the chat moves to
      CONFIRM_BIRTHDATE (in Java once a gender is stored); anything else but
      `/start` changes nothing. */
  lemma BirthdateInputOutcome(v: Variant, e: ChatEntry, text: string)
    requires e.Current() == WaitingForBirthdate && !IsStartCommand(v, text)
    ensures IsDateFormat(text) && (v == JsBot || e.Get(GenderKey).Some?) ==>
      TextStep(v, e, text).entry == e.Put(BirthdateKey, text).SetState(ConfirmBirthdate)
    ensures !IsDateFormat(text) ==> TextStep(v, e, text) == Transition(e, [InvalidBirthdate])
  {
  }

  /** A button press in START, WAITING_FOR_NAME or WAITING_FOR_BIRTHDATE does
      nothing and sends nothing. */
  lemma CallbackOutsideButtonStates(v: Variant, e: ChatEntry, token: string, fileExists: PdfPath -> bool, delivered: bool)
    requires e.Current() in {Start, WaitingForName, WaitingForBirthdate}
    ensures CallbackStep(v, e, token, fileExists, delivered) == Transition(e, [])
  {
  }

  /** The gender button stores its raw token and asks for the name. */
  lemma GenderSelectionOutcome(v: Variant, e: ChatEntry, token: string, fileExists: PdfPath -> bool, delivered: bool)
    requires e.Current() == WaitingForGender
    ensures CallbackStep(v, e, token, fileExists, delivered).entry == e.Put(GenderKey, token).SetState(WaitingForName)
    ensures CallbackStep(v, e, token, fileExists, delivered).entry.Get(GenderKey) == Some(token)
  {
  }

  /** Confirming the name: "confirm_yes" asks for the birth date (in Java once a
      gender is stored), any other token goes back to the name and keeps the
      answers. */
  lemma NameConfirmationOutcome(v: Variant, e: ChatEntry, token: string, fileExists: PdfPath -> bool, delivered: bool)
    requires e.Current() == ConfirmName
    ensures token == ConfirmYes && (v == JsBot || e.Get(GenderKey).Some?) ==>
      CallbackStep(v, e, token, fileExists, delivered).entry == e.SetState(WaitingForBirthdate)
    ensures token != ConfirmYes ==>
      CallbackStep(v, e, token, fileExists, delivered) == Transition(e.SetState(WaitingForName), [RetryName])
  {
  }

  /** Confirming the birth date with another token goes back to the date and keeps the answers. */
  lemma BirthdateRejectionOutcome(v: Variant, e: ChatEntry, token: string, fileExists: PdfPath -> bool, delivered: bool)
    requires e.Current() == ConfirmBirthdate && token != ConfirmYes
    ensures CallbackStep(v, e, token, fileExists, delivered) == Transition(e.SetState(WaitingForBirthdate), [RetryBirthdate])
  {
  }

  /** Java: "confirm_yes" on the birth date always reaches WAITING_FOR_MORE, whatever
      the answers and however the delivery goes, and asks about more information last. */
  lemma JavaBirthdateConfirmationAdvances(e: ChatEntry, fileExists: PdfPath -> bool, delivered: bool)
    requires e.Current() == ConfirmBirthdate
    ensures var t := CallbackStep(JavaBot, e, ConfirmYes, fileExists, delivered);
      && t.entry == e.SetState(WaitingForMore)
      && |t.effects| >= 2 && t.effects[|t.effects| - 1] == AskMoreInfo
  {
  }

  /** JavaScript: "confirm_yes" on the birth date reaches WAITING_FOR_MORE except
      when the resolved file exists and its send is rejected; then nothing changes
      and nothing more is sent. */
  lemma JsBirthdateConfirmationAdvancesUnlessRejected(e: ChatEntry, fileExists: PdfPath -> bool, delivered: bool)
    requires e.Current() == ConfirmBirthdate
    ensures var t := CallbackStep(JsBot, e, ConfirmYes, fileExists, delivered);
      var stays := e.Get(BirthdateKey).Some? && !delivered &&
        fileExists(FindArcanumPdf(JsArcanumLabel(JsDay(e.Get(BirthdateKey).value)), e.Get(GenderKey) == Some(MaleToken), fileExists));
      && (stays ==> t == Transition(e, []))
      && (!stays ==> t.entry == e.SetState(WaitingForMore) && t.effects[|t.effects| - 1] == AskMoreInfo)
  {
  }

  /** In WAITING_FOR_MORE every button leaves the chat as it is. */
  lemma MoreInfoKeepsState(v: Variant, e: ChatEntry, token: string, fileExists: PdfPath -> bool, delivered: bool)
    requires e.Current() == WaitingForMore
    ensures CallbackStep(v, e, token, fileExists, delivered).entry == e
    ensures CallbackStep(v, e, token, fileExists, delivered).effects ==
      if token != ConfirmYes then [Farewell] else if v == JavaBot then [OfferDetails, ContactLink] else [OfferDetails]
  {
  }

  /** From a reachable chat the delivery never hits an exception: the day is the
      two-digit day field, and both versions resolve and send the same file
      under the same arcanum. */
  lemma ReachableDelivery(e: ChatEntry, fileExists: PdfPath -> bool, delivered: bool)
    requires ChatInvariant(e) && e.Current() == ConfirmBirthdate
    ensures var date := e.Get(BirthdateKey).value;
      var arcanum := Num(Arcanum(DayDigits(date)));
      var path := FindArcanumPdf(arcanum, e.Get(GenderKey).value == MaleToken, fileExists);
      && JavaArcanumDelivery(e.Get(BirthdateKey), e.Get(GenderKey), fileExists, delivered) == SendPdfDocument(path, arcanum, fileExists, delivered)
      && JsArcanumDelivery(e.Get(BirthdateKey), e.Get(GenderKey), fileExists, delivered).effects ==
           (if fileExists(path) && !delivered then [] else SendPdfDocument(path, arcanum, fileExists, delivered))
  {
    AcceptedDateDay(e.Get(BirthdateKey).value);
  }

  /** A well-formed date with day field "00" yields arcanum 0, outside 1..22:
      the range of the arcanum needs a day of at least 1, which the format
      check alone does not give. */
  lemma DayZeroGivesArcanumZero(gender: string, fileExists: PdfPath -> bool)
    ensures IsDateFormat("00.01.2000")
    ensures JavaArcanumDelivery(Some("00.01.2000"), Some(gender), fileExists, true) ==
      SendPdfDocument(FindArcanumPdf(Num(0), gender == MaleToken, fileExists), Num(0), fileExists, true)
  {
    DateFormatIsDigitsAndDots("00.01.2000");
    AcceptedDateDay("00.01.2000");
    assert DayDigits("00.01.2000") == 0;
  }

  /** The six events of a complete conversation: `/start`, the gender button,
      the name, "confirm_yes", the birth date, "confirm_yes". */
  function FullDialog(v: Variant, e: ChatEntry, gender: string, name: string, date: string,
                      fileExists: PdfPath -> bool, delivered: bool): Transition
  {
    var s1 := TextStep(v, e, StartCommand).entry;
    var s2 := CallbackStep(v, s1, gender, fileExists, delivered).entry;
    var s3 := TextStep(v, s2, name).entry;
    var s4 := CallbackStep(v, s3, ConfirmYes, fileExists, delivered).entry;
    var s5 := TextStep(v, s4, date).entry;
    CallbackStep(v, s5, ConfirmYes, fileExists, delivered)
  }

  /** From any state, a conversation with a valid name and a well-formed date
      ends in WAITING_FOR_MORE having stored all three answers and delivered the
      arcanum of the day field; in JavaScript it stays in CONFIRM_BIRTHDATE
      exactly when the resolved file exists and its send is rejected. */
  lemma {:induction false} FullDialogOutcome(v: Variant, e: ChatEntry, gender: string, name: string, date: string,
                                             fileExists: PdfPath -> bool, delivered: bool)
    requires ValidName(name) && IsDateFormat(date)
    ensures var t := FullDialog(v, e, gender, name, date, fileExists, delivered);
      var arcanum := Num(Arcanum(DayDigits(date)));
      var path := FindArcanumPdf(arcanum, gender == MaleToken, fileExists);
      var stays := v == JsBot && fileExists(path) && !delivered;
      && t.entry.Answers() == e.Answers()[GenderKey := gender][NameKey := name][BirthdateKey := date]
      && t.entry.Current() == (if stays then ConfirmBirthdate else WaitingForMore)
      && t.effects == (if stays then [] else SendPdfDocument(path, arcanum, fileExists, delivered) + [AskMoreInfo])
  {
    InputsAreNotStartCommands(v, name);
    InputsAreNotStartCommands(v, date);
    var s1 := TextStep(v, e, StartCommand).entry;
    StartCommandRestarts(v, e, StartCommand);
    var s2 := CallbackStep(v, s1, gender, fileExists, delivered).entry;
    GenderSelectionOutcome(v, s1, gender, fileExists, delivered);
    var s3 := TextStep(v, s2, name).entry;
    NameInputOutcome(v, s2, name);
    var s4 := CallbackStep(v, s3, ConfirmYes, fileExists, delivered).entry;
    assert s3.Get(GenderKey) == Some(gender);
    NameConfirmationOutcome(v, s3, ConfirmYes, fileExists, delivered);
    var s5 := TextStep(v, s4, date).entry;
    assert s4.Get(GenderKey) == Some(gender);
    BirthdateInputOutcome(v, s4, date);
    assert s5.Get(BirthdateKey) == Some(date) && s5.Get(GenderKey) == Some(gender);
    assert s5.Answers() == e.Answers()[GenderKey := gender][NameKey := name][BirthdateKey := date];
    FinalConfirmation(v, s5, gender, date, fileExists, delivered);
  }

  /** The last step of `FullDialog`, from a chat that holds the gender and the date. */
  lemma FinalConfirmation(v: Variant, e: ChatEntry, gender: string, date: string,
                          fileExists: PdfPath -> bool, delivered: bool)
    requires IsDateFormat(date) && e.Current() == ConfirmBirthdate
    requires e.Get(BirthdateKey) == Some(date) && e.Get(GenderKey) == Some(gender)
    ensures var t := CallbackStep(v, e, ConfirmYes, fileExists, delivered);
      var arcanum := Num(Arcanum(DayDigits(date)));
      var path := FindArcanumPdf(arcanum, gender == MaleToken, fileExists);
      var stays := v == JsBot && fileExists(path) && !delivered;
      && t.entry.Answers() == e.Answers()
      && t.entry.Current() == (if stays then ConfirmBirthdate else WaitingForMore)
      && t.effects == (if stays then [] else SendPdfDocument(path, arcanum, fileExists, delivered) + [AskMoreInfo])
  {
    AcceptedDateDay(date);
  }
}
