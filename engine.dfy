/**
 * The bot object: the two stores keyed by chat id, `userStates` and
 * `userData`, updated in place by the text and button handlers. Each
 * handler is proved to apply the matching `Dialog` step to its own chat's
 * entries, to leave every other chat's entries as they were, and to keep
 * the reachable-chat invariant of every chat.
 */
module Engine {

  import opened Wrappers
  import opened Numerology
  import opened Validation
  import opened Artifacts
  import opened Dialog

  /** One chat's entries in the two stores. */
  function EntryIn(states: map<ChatId, UserState>, data: map<ChatId, Fields>, chatId: ChatId): ChatEntry
  {
    ChatEntry(if chatId in states then Some(states[chatId]) else None,
              if chatId in data then Some(data[chatId]) else None)
  }

  ghost predicate AllChatsValid(states: map<ChatId, UserState>, data: map<ChatId, Fields>)
  {
    forall c :: ChatInvariant(EntryIn(states, data, c))
  }

  /** Changing one chat's entries keeps every other chat's invariant. */
  lemma LocalUpdateKeepsValid(oldStates: map<ChatId, UserState>, oldData: map<ChatId, Fields>,
                              states: map<ChatId, UserState>, data: map<ChatId, Fields>, chatId: ChatId)
    requires AllChatsValid(oldStates, oldData)
    requires states - {chatId} == oldStates - {chatId}
    requires data - {chatId} == oldData - {chatId}
    requires ChatInvariant(EntryIn(states, data, chatId))
    ensures AllChatsValid(states, data)
  {
    forall c
      ensures ChatInvariant(EntryIn(states, data, c))
    {
      if c != chatId {
        assert (c in states <==> c in states - {chatId}) && (c in oldStates <==> c in oldStates - {chatId});
        assert (c in data <==> c in data - {chatId}) && (c in oldData <==> c in oldData - {chatId});
        assert c in states ==> states[c] == (states - {chatId})[c];
        assert c in oldStates ==> oldStates[c] == (oldStates - {chatId})[c];
        assert c in data ==> data[c] == (data - {chatId})[c];
        assert c in oldData ==> oldData[c] == (oldData - {chatId})[c];
        assert EntryIn(states, data, c) == EntryIn(oldStates, oldData, c);
      }
    }
  }

  class DialogEngine {

    /** Which of the two bots this is. */
    const variant: Variant

    var userStates: map<ChatId, UserState>
    var userData: map<ChatId, Fields>

    /** Every chat is in a reachable configuration. */
    ghost predicate Valid()
      reads this
    {
      AllChatsValid(userStates, userData)
    }

    function Entry(chatId: ChatId): ChatEntry
      reads this
    {
      EntryIn(userStates, userData, chatId)
    }

    constructor (v: Variant)
      ensures variant == v && userStates == map[] && userData == map[]
      ensures Valid()
    {
      variant := v;
      userStates := map[];
      userData := map[];
    }

    /** `getUserData`: None where the chat or the key is missing. */
    function GetUserData(chatId: ChatId, key: string): (r: Option<string>)
      reads this
      ensures r.Some? <==> chatId in userData && key in userData[chatId]
      ensures r.Some? ==> r.value == userData[chatId][key]
    {
      if chatId in userData && key in userData[chatId] then Some(userData[chatId][key]) else None
    }

    /** `storeUserData`: `computeIfAbsent(chatId, new map).put(key, value)`. */
    method StoreUserData(chatId: ChatId, key: string, value: string)
      modifies this
      ensures userData == old(userData)[chatId := old(Entry(chatId)).Answers()[key := value]]
      ensures userStates == old(userStates)
      ensures Entry(chatId) == old(Entry(chatId)).Put(key, value)
    {
      var answers := if chatId in userData then userData[chatId] else map[];
      userData := userData[chatId := answers[key := value]];
    }

    /** Text messages (`handleTextMessage`, `bot.on('message')`). */
    method HandleText(chatId: ChatId, text: string) returns (effects: seq<Effect>)
      modifies this
      ensures Transition(Entry(chatId), effects) == TextStep(variant, old(Entry(chatId)), text)
      ensures userStates - {chatId} == old(userStates) - {chatId}
      ensures userData - {chatId} == old(userData) - {chatId}
      ensures old(Valid()) ==> Valid() && Fault !in effects
    {
      ghost var states0, data0 := userStates, userData;
      var userState := if chatId in userStates then userStates[chatId] else Start;
      if IsStartCommand(variant, text) {
        userStates := userStates[chatId := WaitingForGender];
        effects := [AskGender];
      } else if userState == WaitingForName {
        effects := HandleNameInput(chatId, text);
      } else if userState == WaitingForBirthdate {
        effects := HandleBirthdateInput(chatId, text);
      } else {
        effects := [NotUnderstood];
      }
      if AllChatsValid(states0, data0) {
        TextStepKeepsInvariant(variant, EntryIn(states0, data0, chatId), text);
        LocalUpdateKeepsValid(states0, data0, userStates, userData, chatId);
      }
    }

    /** `handleNameInput` */
    method HandleNameInput(chatId: ChatId, name: string) returns (effects: seq<Effect>)
      modifies this
      ensures Transition(Entry(chatId), effects) == NameInput(variant, old(Entry(chatId)), name)
      ensures userStates - {chatId} == old(userStates) - {chatId}
      ensures userData - {chatId} == old(userData) - {chatId}
    {
      var valid := if variant == JavaBot then JavaIsValidName(name) else JsIsValidName(name);
      if valid {
        StoreUserData(chatId, NameKey, name);
        userStates := userStates[chatId := ConfirmName];
        effects := [ConfirmNamePrompt(name)];
      } else {
        effects := [InvalidName];
      }
    }

    /** `handleBirthdateInput` */
    method HandleBirthdateInput(chatId: ChatId, birthDate: string) returns (effects: seq<Effect>)
      modifies this
      ensures Transition(Entry(chatId), effects) == BirthdateInput(variant, old(Entry(chatId)), birthDate)
      ensures userStates - {chatId} == old(userStates) - {chatId}
      ensures userData - {chatId} == old(userData) - {chatId}
    {
      if IsDateFormat(birthDate) {
        StoreUserData(chatId, BirthdateKey, birthDate);
        var gender := GetUserData(chatId, GenderKey);
        if variant == JavaBot && gender.None? {
          // `gender.equals(...)` throws before the state is written
          effects := [Fault];
        } else {
          userStates := userStates[chatId := ConfirmBirthdate];
          effects := [ConfirmBirthdatePrompt(gender == Some(MaleToken), birthDate)];
        }
      } else {
        effects := [InvalidBirthdate];
      }
    }

    /** Button presses (`handleCallbackQuery`, `bot.on('callback_query')`). The
        outcome of sending the document and the file store are inputs. */
    method HandleCallback(chatId: ChatId, token: string, fileExists: PdfPath -> bool, delivered: bool)
      returns (effects: seq<Effect>)
      modifies this
      ensures Transition(Entry(chatId), effects) == CallbackStep(variant, old(Entry(chatId)), token, fileExists, delivered)
      ensures userStates - {chatId} == old(userStates) - {chatId}
      ensures userData - {chatId} == old(userData) - {chatId}
      ensures old(Valid()) ==> Valid() && Fault !in effects
    {
      ghost var states0, data0 := userStates, userData;
      var userState := if chatId in userStates then userStates[chatId] else Start;
      match userState {
        case WaitingForGender =>
          effects := HandleGenderSelection(chatId, token);
        case ConfirmName =>
          effects := HandleNameConfirmation(chatId, token);
        case ConfirmBirthdate =>
          effects := HandleBirthdateConfirmation(chatId, token, fileExists, delivered);
        case WaitingForMore =>
          effects := HandleMoreInfoRequest(chatId, token);
        case _ =>
          effects := [];
      }
      if AllChatsValid(states0, data0) {
        CallbackStepKeepsInvariant(variant, EntryIn(states0, data0, chatId), token, fileExists, delivered);
        LocalUpdateKeepsValid(states0, data0, userStates, userData, chatId);
      }
    }

    /** `handleGenderSelection` */
    method HandleGenderSelection(chatId: ChatId, gender: string) returns (effects: seq<Effect>)
      modifies this
      ensures Transition(Entry(chatId), effects) == GenderSelection(old(Entry(chatId)), gender)
      ensures userStates - {chatId} == old(userStates) - {chatId}
      ensures userData - {chatId} == old(userData) - {chatId}
    {
      StoreUserData(chatId, GenderKey, gender);
      userStates := userStates[chatId := WaitingForName];
      effects := [AskName];
    }

    /** `handleNameConfirmation` */
    method HandleNameConfirmation(chatId: ChatId, confirmation: string) returns (effects: seq<Effect>)
      modifies this
      ensures Transition(Entry(chatId), effects) == NameConfirmation(variant, old(Entry(chatId)), confirmation)
      ensures userStates - {chatId} == old(userStates) - {chatId}
      ensures userData == old(userData)
    {
      if confirmation == ConfirmYes {
        var gender := GetUserData(chatId, GenderKey);
        if variant == JavaBot && gender.None? {
          // `gender.equals(...)` throws before the state is written
          effects := [Fault];
        } else {
          userStates := userStates[chatId := WaitingForBirthdate];
          effects := [AskBirthdate(gender == Some(MaleToken))];
        }
      } else {
        userStates := userStates[chatId := WaitingForName];
        effects := [RetryName];
      }
    }

    /** `handleBirthdateConfirmation` */
    method HandleBirthdateConfirmation(chatId: ChatId, confirmation: string, fileExists: PdfPath -> bool, delivered: bool)
      returns (effects: seq<Effect>)
      modifies this
      ensures Transition(Entry(chatId), effects) == BirthdateConfirmation(variant, old(Entry(chatId)), confirmation, fileExists, delivered)
      ensures userStates - {chatId} == old(userStates) - {chatId}
      ensures userData == old(userData)
    {
      if confirmation == ConfirmYes {
        var birthDate := GetUserData(chatId, BirthdateKey);
        if variant == JavaBot {
          var sent := SendArcanumDocument(chatId, birthDate, fileExists, delivered);
          effects := sent + [AskMoreInfo];
          userStates := userStates[chatId := WaitingForMore];
        } else {
          var sent, callbackRuns := SendArcanumDocumentJs(chatId, birthDate, fileExists, delivered);
          effects := sent;
          if callbackRuns {
            effects := effects + [AskMoreInfo];
            userStates := userStates[chatId := WaitingForMore];
          }
        }
      } else {
        userStates := userStates[chatId := WaitingForBirthdate];
        effects := [RetryBirthdate];
      }
    }

    /** `handleMoreInfoRequest`: replies only, the state is never written. */
    method HandleMoreInfoRequest(chatId: ChatId, confirmation: string) returns (effects: seq<Effect>)
      ensures effects == MoreInfoRequest(variant, Entry(chatId), confirmation).effects
    {
      if confirmation == ConfirmYes {
        effects := if variant == JavaBot then [OfferDetails, ContactLink] else [OfferDetails];
      } else {
        effects := [Farewell];
      }
    }

    /** Java `sendArcanumDocument`, every exception on the way caught at its end. */
    method SendArcanumDocument(chatId: ChatId, birthDate: Option<string>, fileExists: PdfPath -> bool, delivered: bool)
      returns (effects: seq<Effect>)
      ensures effects == JavaArcanumDelivery(birthDate, Entry(chatId).Get(GenderKey), fileExists, delivered)
    {
      if birthDate.None? {
        return [DateError];                     // NullPointerException at `split`
      }
      var parts := JavaFirstField(birthDate.value);
      if parts.None? {
        return [DateError];                     // ArrayIndexOutOfBoundsException at `parts[0]`
      }
      var day := JavaParseInt(parts.value);
      if day.None? {
        return [DateError];                     // NumberFormatException
      }
      var arcanumNumber := CalculateArcanumNumber(day.value);
      var gender := GetUserData(chatId, GenderKey);
      if gender.None? {
        return [DateError];                     // NullPointerException in `findArcanumPdf`
      }
      var pdfPath := FindArcanumPdf(Num(arcanumNumber), gender.value == MaleToken, fileExists);
      effects := SendPdfDocument(pdfPath, Num(arcanumNumber), fileExists, delivered);
    }

    /** JavaScript `sendArcanumDocument`; `callbackRuns` tells whether the
        follow-up (prompt and state change) runs. */
    method SendArcanumDocumentJs(chatId: ChatId, birthDate: Option<string>, fileExists: PdfPath -> bool, delivered: bool)
      returns (effects: seq<Effect>, callbackRuns: bool)
      ensures Delivery(effects, callbackRuns) == JsArcanumDelivery(birthDate, Entry(chatId).Get(GenderKey), fileExists, delivered)
    {
      if birthDate.None? {
        return [DateError], true;               // TypeError at `undefined.split`, caught
      }
      var day := JsDay(birthDate.value);
      var arcanumNumber: Label := NotANumber;
      if day.Some? {
        var n := CalculateArcanumNumberJs(day.value);
        arcanumNumber := Num(n);
      }
      var gender := GetUserData(chatId, GenderKey);
      var pdfPath := FindArcanumPdf(arcanumNumber, gender == Some(MaleToken), fileExists);
      if !fileExists(pdfPath) {
        effects, callbackRuns := [FileNotFound], true;
      } else if delivered {
        effects, callbackRuns := [Document(pdfPath, arcanumNumber)], true;
      } else {
        effects, callbackRuns := [], false;     // the rejected promise never calls back
      }
    }
  }
}
