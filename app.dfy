/** The page logic of App.tsx: the search form's state and handlers, the
    theme switch, and the banner that classifies an error message. */
module App {
  import opened Types
  import opened JsStrings
  import GeminiService

  // ---------------------------------------------------------------------
  // getErrorUI

  datatype Icon = CloudOff | Lock | ServerCrash | ShieldAlert | AlertTriangle

  /** The banner shown above a failed search. */
  datatype ErrorUI = ErrorUI(title: string, icon: Icon, className: string)

  const ConnectionUI := ErrorUI("انقطاع في الاتصال", CloudOff,
    "bg-blue-50 border-blue-100 text-blue-900 dark:bg-blue-900/20 dark:border-blue-800 dark:text-blue-200")
  const AuthUI := ErrorUI("خطأ في التصريح", Lock,
    "bg-rose-50 border-rose-100 text-rose-900 dark:bg-rose-900/20 dark:border-rose-800 dark:text-rose-200")
  const ServerBusyUI := ErrorUI("الخادم مشغول", ServerCrash,
    "bg-amber-50 border-amber-100 text-amber-900 dark:bg-amber-900/20 dark:border-amber-800 dark:text-amber-200")
  const SafetyUI := ErrorUI("محتوى محظور", ShieldAlert,
    "bg-orange-50 border-orange-100 text-orange-900 dark:bg-orange-900/20 dark:border-orange-800 dark:text-orange-200")
  const GenericUI := ErrorUI("خطأ غير متوقع", AlertTriangle,
    "bg-red-50 border-red-100 text-red-900 dark:bg-red-900/20 dark:border-red-800 dark:text-red-200")

  predicate ConnectionError(msg: string)
  {
    Includes(msg, "اتصال") || Includes(msg, "الإنترنت") || Includes(msg, "Failed to fetch")
  }

  predicate AuthError(msg: string)
  {
    Includes(msg, "مفتاح") || Includes(msg, "API key") || Includes(msg, "403")
  }

  predicate BusyError(msg: string)
  {
    Includes(msg, "تجاوزت الحد") || Includes(msg, "مشغول") || Includes(msg, "429")
      || Includes(msg, "500") || Includes(msg, "503")
  }

  predicate SafetyError(msg: string)
  {
    Includes(msg, "سلامة") || Includes(msg, "SAFETY")
  }

  /** The first category that applies, in the order connection,
      authorisation, server busy, content safety; generic otherwise. */
  function FirstCategory(connection: bool, auth: bool, busy: bool, safety: bool): (r: ErrorUI)
    ensures r == ConnectionUI <==> connection
    ensures r == AuthUI <==> !connection && auth
    ensures r == ServerBusyUI <==> !connection && !auth && busy
    ensures r == SafetyUI <==> !connection && !auth && !busy && safety
    ensures r == GenericUI <==> !connection && !auth && !busy && !safety
  {
    if connection then ConnectionUI
    else if auth then AuthUI
    else if busy then ServerBusyUI
    else if safety then SafetyUI
    else GenericUI
  }

  /** getErrorUI, as written. */
  function GetErrorUI(msg: string): (r: ErrorUI)
    ensures r == ConnectionUI <==> ConnectionError(msg)
    ensures r == AuthUI <==> !ConnectionError(msg) && AuthError(msg)
    ensures r == ServerBusyUI <==> !ConnectionError(msg) && !AuthError(msg) && BusyError(msg)
    ensures r == SafetyUI <==> !ConnectionError(msg) && !AuthError(msg) && !BusyError(msg) && SafetyError(msg)
    ensures r == GenericUI <==> !ConnectionError(msg) && !AuthError(msg) && !BusyError(msg) && !SafetyError(msg)
  {
    FirstCategory(ConnectionError(msg), AuthError(msg), BusyError(msg), SafetyError(msg))
  }

  /** Server-busy detection that also knows the wording the service uses
      for an exceeded quota. */
  predicate BusyErrorFixed(msg: string)
  {
    BusyError(msg) || Includes(msg, "تجاوز الحد")
  }

  /** getErrorUI with the quota wording recognised. */
  function GetErrorUIFixed(msg: string): ErrorUI
  {
    FirstCategory(ConnectionError(msg), AuthError(msg), BusyErrorFixed(msg), SafetyError(msg))
  }

  /** The fix only ever turns a generic banner into a server-busy one. */
  lemma FixOnlyReclassifiesGeneric(msg: string)
    ensures GetErrorUIFixed(msg) != GetErrorUI(msg) ==>
              GetErrorUI(msg) == GenericUI || GetErrorUI(msg) == SafetyUI
    ensures GetErrorUIFixed(msg) != GetErrorUI(msg) ==> GetErrorUIFixed(msg) == ServerBusyUI
  {
  }

  // ---------------------------------------------------------------------
  // The service's messages on the banner

  /** Each category is ruled out by one character missing from each of its
      words. */
  lemma NotConnection(msg: string)
    requires 'ص' !in msg && 'إ' !in msg && 'F' !in msg
    ensures !ConnectionError(msg)
  {
    NotIncludedIfCharMissing(msg, "اتصال", 2);
    NotIncludedIfCharMissing(msg, "الإنترنت", 2);
    NotIncludedIfCharMissing(msg, "Failed to fetch", 0);
  }

  lemma NotAuth(msg: string)
    requires 'ف' !in msg && 'A' !in msg && '4' !in msg
    ensures !AuthError(msg)
  {
    NotIncludedIfCharMissing(msg, "مفتاح", 1);
    NotIncludedIfCharMissing(msg, "API key", 0);
    NotIncludedIfCharMissing(msg, "403", 0);
  }

  lemma NotBusyDigits(msg: string)
    requires 'ش' !in msg && '4' !in msg && '5' !in msg
    ensures !Includes(msg, "مشغول") && !Includes(msg, "429") && !Includes(msg, "500") && !Includes(msg, "503")
  {
    NotIncludedIfCharMissing(msg, "مشغول", 1);
    NotIncludedIfCharMissing(msg, "429", 0);
    NotIncludedIfCharMissing(msg, "500", 0);
    NotIncludedIfCharMissing(msg, "503", 0);
  }

  lemma NotBusy(msg: string)
    requires 'ز' !in msg && 'ش' !in msg && '4' !in msg && '5' !in msg
    ensures !BusyErrorFixed(msg)
  {
    NotIncludedIfCharMissing(msg, "تجاوزت الحد", 4);
    NotIncludedIfCharMissing(msg, "تجاوز الحد", 4);
    NotBusyDigits(msg);
  }

  lemma NotSafety(msg: string)
    requires 'ة' !in msg && 'S' !in msg
    ensures !SafetyError(msg)
  {
    NotIncludedIfCharMissing(msg, "سلامة", 4);
    NotIncludedIfCharMissing(msg, "SAFETY", 0);
  }

  /** A message with none of the words of the first three categories and
      a character of each safety word missing gets the generic banner. */
  lemma GenericBannerIf(msg: string)
    requires 'ص' !in msg && 'إ' !in msg && 'F' !in msg
    requires 'ف' !in msg && 'A' !in msg && '4' !in msg
    requires !BusyError(msg)
    requires 'ة' !in msg && 'S' !in msg
    ensures GetErrorUI(msg) == GenericUI
  {
    NotConnection(msg);
    NotAuth(msg);
    NotSafety(msg);
  }

  /** The connection message mentions a connection. */
  lemma NetworkMessageBanner(msg: string)
    requires msg == GeminiService.NetworkMessage
    ensures GetErrorUI(msg) == ConnectionUI && GetErrorUIFixed(msg) == ConnectionUI
  {
    OccursIncludes(msg, "اتصال", 9);
  }

  lemma ApiKeyMessageChars(msg: string)
    requires msg == GeminiService.ApiKeyMessage
    ensures 'ص' !in msg && 'إ' !in msg && 'F' !in msg && Includes(msg, "مفتاح")
  {
    OccursIncludes(msg, "مفتاح", 7);
  }

  /** The key message mentions the key and no connection. */
  lemma ApiKeyMessageBanner(msg: string)
    requires msg == GeminiService.ApiKeyMessage
    ensures GetErrorUI(msg) == AuthUI && GetErrorUIFixed(msg) == AuthUI
  {
    ApiKeyMessageChars(msg);
    NotConnection(msg);
  }

  lemma FetchFailedMessageChars(msg: string)
    requires msg == GeminiService.FetchFailedMessage
    ensures 'ص' !in msg && 'إ' !in msg && 'F' !in msg
    ensures 'ف' !in msg && 'A' !in msg && '4' !in msg
    ensures 'ز' !in msg && 'ش' !in msg && '5' !in msg
    ensures 'ة' !in msg && 'S' !in msg
  {
    // A case split on the 31 positions of the literal.
    forall j | 0 <= j < |msg|
      ensures msg[j] !in {'ص', 'إ', 'F', 'ف', 'A', '4', 'ز', 'ش', '5', 'ة', 'S'}
    {
      assert j == 0 || j == 1 || j == 2 || j == 3 || j == 4 || j == 5 || j == 6 || j == 7 || j == 8
            || j == 9 || j == 10 || j == 11 || j == 12 || j == 13 || j == 14 || j == 15 || j == 16 || j == 17
            || j == 18 || j == 19 || j == 20 || j == 21 || j == 22 || j == 23 || j == 24 || j == 25 || j == 26
            || j == 27 || j == 28 || j == 29 || j == 30;
    }
  }

  /** The generic failure text matches no category. */
  lemma FetchFailedMessageBanner(msg: string)
    requires msg == GeminiService.FetchFailedMessage
    ensures GetErrorUI(msg) == GenericUI && GetErrorUIFixed(msg) == GenericUI
  {
    FetchFailedMessageChars(msg);
    NotBusy(msg);
    GenericBannerIf(msg);
  }

  /** The quota text: `تجاوز` is followed by a space, never by the `ت` of
      `تجاوزت`. */
  lemma QuotaLacksBusyWord(msg: string)
    requires msg == GeminiService.QuotaMessage
    ensures !Includes(msg, "تجاوزت الحد")
  {
    var t := "تجاوزت الحد";
    forall j | 0 <= j && j + 1 < |msg|
      ensures !(msg[j] == t[4] && msg[j + 1] == t[5])
    {
      if msg[j] == t[4] {
        assert j == 4 by {
          assert j == 0 || j == 1 || j == 2 || j == 3 || j == 4 || j == 5 || j == 6 || j == 7 || j == 8
            || j == 9 || j == 10 || j == 11 || j == 12 || j == 13 || j == 14 || j == 15 || j == 16
            || j == 17 || j == 18 || j == 19 || j == 20 || j == 21 || j == 22 || j == 23 || j == 24
            || j == 25;
        }
      }
    }
    NotIncludedIfPairMissing(msg, t, 4);
  }

  lemma QuotaMessageChars(msg: string)
    requires msg == GeminiService.QuotaMessage
    ensures 'ص' !in msg && 'إ' !in msg && 'F' !in msg
    ensures 'ف' !in msg && 'A' !in msg && '4' !in msg
    ensures 'ش' !in msg && '5' !in msg
    ensures 'ة' !in msg && 'S' !in msg
  {
    // A case split on the 27 positions of the literal.
    forall j | 0 <= j < |msg|
      ensures msg[j] !in {'ص', 'إ', 'F', 'ف', 'A', '4', 'ش', '5', 'ة', 'S'}
    {
      assert j == 0 || j == 1 || j == 2 || j == 3 || j == 4 || j == 5 || j == 6 || j == 7 || j == 8
            || j == 9 || j == 10 || j == 11 || j == 12 || j == 13 || j == 14 || j == 15 || j == 16 || j == 17
            || j == 18 || j == 19 || j == 20 || j == 21 || j == 22 || j == 23 || j == 24 || j == 25 || j == 26;
    }
  }

  /** The quota text opens with the service's wording of a quota. */
  lemma QuotaMessageWording(msg: string)
    requires msg == GeminiService.QuotaMessage
    ensures Includes(msg, "تجاوز الحد")
  {
    OccursIncludes(msg, "تجاوز الحد", 0);
  }

  /** The quota text matches none of the words getErrorUI looks for. */
  lemma QuotaMessageBanner(msg: string)
    requires msg == GeminiService.QuotaMessage
    ensures GetErrorUI(msg) == GenericUI
  {
    QuotaMessageChars(msg);
    QuotaLacksBusyWord(msg);
    NotBusyDigits(msg);
    GenericBannerIf(msg);
  }

  /** With the quota wording recognised, the quota text is a server-busy
      banner. */
  lemma QuotaMessageBannerFixed(msg: string)
    requires msg == GeminiService.QuotaMessage
    ensures GetErrorUIFixed(msg) == ServerBusyUI
  {
    QuotaMessageChars(msg);
    QuotaMessageWording(msg);
    NotConnection(msg);
    NotAuth(msg);
  }

  /** What a failed lookup shows, from the failure's own message: the
      service's message names the connection or the key only for failures
      that mention `network` or `API key` (and not `429`), and as written
      no service failure, not even a rate limit, shows the server-busy
      banner. */
  lemma ServiceFailureBanner(message: Option<string>)
    ensures var shown := GeminiService.ErrorMessage(message);
      && (GetErrorUI(shown) == ConnectionUI <==> shown == GeminiService.NetworkMessage)
      && (GetErrorUI(shown) == AuthUI <==> shown == GeminiService.ApiKeyMessage)
      && GetErrorUI(shown) != ServerBusyUI
  {
    var shown := GeminiService.ErrorMessage(message);
    GeminiService.ErrorMessageCases(message);
    if shown == GeminiService.NetworkMessage {
      NetworkMessageBanner(shown);
    } else if shown == GeminiService.ApiKeyMessage {
      ApiKeyMessageBanner(shown);
    } else if shown == GeminiService.QuotaMessage {
      QuotaMessageBanner(shown);
    } else {
      FetchFailedMessageBanner(shown);
    }
  }

  /** With the fix, a rate-limited failure shows the server-busy banner. */
  lemma ServiceFailureBannerFixed(message: Option<string>)
    ensures var shown := GeminiService.ErrorMessage(message);
      GetErrorUIFixed(shown) == ServerBusyUI <==> message.Some? && Includes(message.value, "429")
  {
    var shown := GeminiService.ErrorMessage(message);
    GeminiService.ErrorMessageCases(message);
    if shown == GeminiService.NetworkMessage {
      NetworkMessageBanner(shown);
    } else if shown == GeminiService.ApiKeyMessage {
      ApiKeyMessageBanner(shown);
    } else if shown == GeminiService.QuotaMessage {
      QuotaMessageBannerFixed(shown);
    } else {
      FetchFailedMessageBanner(shown);
    }
  }

  // ---------------------------------------------------------------------
  // Form and theme

  datatype Theme = Light | Dark

  /** The functional update passed to `setTheme`. */
  function Flip(t: Theme): (r: Theme)
    ensures r != t
  {
    if t == Light then Dark else Light
  }

  /** Toggling the theme twice gives back the theme. */
  lemma FlipInvolution(t: Theme)
    ensures Flip(Flip(t)) == t
  {
  }

  /** isFormValid: both countries chosen and different. */
  predicate IsFormValid(origin: Option<Country>, destination: Option<Country>)
    ensures IsFormValid(origin, destination) ==>
      origin.Some? && destination.Some? && origin.value.code != destination.value.code
  {
    origin.Some? && destination.Some? && origin.value.code != destination.value.code
  }

  /** Swapping the two countries keeps the form valid or invalid. */
  lemma FormValiditySymmetric(origin: Option<Country>, destination: Option<Country>)
    ensures IsFormValid(origin, destination) == IsFormValid(destination, origin)
  {
  }

  /** The outcome of the service call: a response, or a failure with its
      `message`, `None` when it has none. */
  datatype SearchOutcome = Found(response: VisaInfoResponse) | Failed(message: Option<string>)

  /** The message `handleSearch` stores: `err.message || "حدث خطأ غير متوقع"`. */
  function FailureText(message: Option<string>): (r: string)
    ensures r != ""
    ensures message.Some? && message.value != "" ==> r == message.value
  {
    if message.Some? && message.value != "" then message.value else "حدث خطأ غير متوقع"
  }

  /** The state of the App component. */
  class AppState {
    var origin: Option<Country>
    var destination: Option<Country>
    var loading: bool
    var result: Option<VisaInfoResponse>
    var error: Option<string>
    var theme: Theme

    constructor ()
      ensures origin == None && destination == None && !loading
      ensures result == None && error == None && theme == Light
    {
      origin, destination, loading := None, None, false;
      result, error, theme := None, None, Light;
    }

    function FormValid(): bool
      reads this
    {
      IsFormValid(origin, destination)
    }

    /** The search button is enabled. */
    function CanSearch(): (r: bool)
      reads this
      ensures r ==> origin.Some? && destination.Some? && origin.value.code != destination.value.code
      ensures r ==> !loading
      ensures IsFormValid(origin, destination) && !loading ==> r
    {
      FormValid() && !loading
    }

    /** The error banner rendered for the current error, if any. */
    function ErrorBanner(): (r: Option<ErrorUI>)
      reads this
      ensures r.Some? <==> error.Some? && error.value != ""
      ensures r.Some? ==> error.Some? && r.value == GetErrorUI(error.value)
    {
      if error.Some? && error.value != "" then Some(GetErrorUI(error.value)) else None
    }

    /** toggleTheme. */
    method ToggleTheme()
      modifies this
      ensures theme == Flip(old(theme))
      ensures origin == old(origin) && destination == old(destination)
      ensures loading == old(loading) && result == old(result) && error == old(error)
    {
      theme := Flip(theme);
    }

    /** handleSwap. */
    method HandleSwap()
      modifies this
      ensures origin == old(destination) && destination == old(origin)
      ensures FormValid() == old(FormValid())
      ensures loading == old(loading) && result == old(result) && error == old(error) && theme == old(theme)
    {
      FormValiditySymmetric(origin, destination);
      origin, destination := destination, origin;
    }

    /** handleSearch, with the service call's outcome as a parameter:
        nothing happens until both countries are chosen; then the old
        answer and error are cleared and replaced by the outcome. */
    method HandleSearch(outcome: SearchOutcome)
      modifies this
      ensures old(origin.None? || destination.None?) ==>
        origin == old(origin) && destination == old(destination) && loading == old(loading)
        && result == old(result) && error == old(error)
      ensures old(origin.Some? && destination.Some?) ==>
        && !loading
        && (outcome.Found? ==> result == Some(outcome.response) && error == None)
        && (outcome.Failed? ==> result == None && error == Some(FailureText(outcome.message)))
      ensures origin == old(origin) && destination == old(destination) && theme == old(theme)
    {
      if origin.None? || destination.None? {
        return;
      }
      loading := true;
      error := None;
      result := None;
      match outcome {
        case Found(response) =>
          result := Some(response);
        case Failed(message) =>
          error := Some(FailureText(message));
      }
      loading := false;
    }

    /** handleReset: back to an empty form. */
    method HandleReset()
      modifies this
      ensures result == None && origin == None && destination == None && error == None
      ensures !FormValid() && ErrorBanner() == None
      ensures loading == old(loading) && theme == old(theme)
    {
      result := None;
      origin := None;
      destination := None;
      error := None;
    }
  }

  /** Swapping twice gives back the chosen countries. */
  method SwapTwice(app: AppState)
    modifies app
    ensures app.origin == old(app.origin) && app.destination == old(app.destination)
  {
    app.HandleSwap();
    app.HandleSwap();
  }
}
