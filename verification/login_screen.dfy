/** The state of the login screen and the handlers that change it: reading the
    stored language at mount, the two text inputs, submitting the form, and
    opening, closing and choosing in the language selector. Each state hook of
    the screen is a field of the class; the 'LANG' entry of the device's
    key-value store is the field storedLang. */
module LoginScreen {

  import opened Options
  import opened Locale
  import opened Validation

  /** `if (lang)` on the value read back from storage: a missing entry and an
      empty string both count as "no preference". */
  predicate HasPreference(stored: Option<string>) {
    stored.Some? && stored.value != ""
  }

  class Login {
    var selectLanguage: string
    var email: string
    var password: string
    var emailError: ErrorText
    var passwordError: ErrorText
    var showModal: bool
    var storedLang: Option<string>

    /** The initial values of the screen's state hooks; the store holds
        whatever an earlier session left in it. */
    constructor (stored: Option<string>)
      ensures selectLanguage == English
      ensures email == "" && password == ""
      ensures emailError == NoError && passwordError == NoError
      ensures !showModal
      ensures storedLang == stored
    {
      selectLanguage := English;
      email, password := "", "";
      emailError, passwordError := NoError, NoError;
      showModal := false;
      storedLang := stored;
    }

    /** checkLng: a stored preference replaces the displayed name by its
        label; without one the name stays as it is. Only the displayed name
        can change. */
    method CheckLng()
      modifies this`selectLanguage
      ensures HasPreference(storedLang) ==> selectLanguage == CodeToLabel(storedLang.value)
      ensures !HasPreference(storedLang) ==> selectLanguage == old(selectLanguage)
      ensures HasPreference(storedLang) ==> IsKnownLabel(selectLanguage)
    {
      if HasPreference(storedLang) {
        selectLanguage := CodeToLabel(storedLang.value);
      }
    }

    /** The e-mail input's onChangeText: the field takes the text, and its
        error stays as the last submit left it. */
    method SetEmail(text: string)
      modifies this`email
      ensures email == text
    {
      email := text;
    }

    /** The password input's onChangeText. */
    method SetPassword(text: string)
      modifies this`password
      ensures password == text
    {
      password := text;
    }

    /** handleLogin: both error fields are overwritten with the validators'
        results, each computed from its own field only, and success is
        signalled exactly when both are empty. */
    method HandleLogin() returns (success: bool)
      modifies this`emailError, this`passwordError
      ensures emailError == EmailError(email)
      ensures passwordError == ValidatePassword(password)
      ensures success <==> emailError == NoError && passwordError == NoError
      ensures success <==> SingleAtDottedDomain(email) && |password| >= 6
    {
      var emailValidationError := ValidateEmail(email);
      var passwordValidationError := ValidatePassword(password);
      emailError := emailValidationError;
      passwordError := passwordValidationError;
      success := emailValidationError == NoError && passwordValidationError == NoError;
    }

    /** The language button's onPress. */
    method OpenModal()
      modifies this`showModal
      ensures showModal
    {
      showModal := true;
    }

    /** The selector's onClose. */
    method CloseModal()
      modifies this`showModal
      ensures !showModal
    {
      showModal := false;
    }

    /** The selector's onSelect: the code for the chosen name is stored, the
        chosen name is displayed as given, and the selector closes. The form
        fields and their errors are untouched. */
    method OnSelect(lang: string)
      modifies this`storedLang, this`selectLanguage, this`showModal
      ensures storedLang == Some(LabelToCode(lang))
      ensures IsKnownCode(storedLang.value)
      ensures selectLanguage == lang
      ensures !showModal
    {
      var lng := LabelToCode(lang);
      storedLang := Some(lng);
      selectLanguage := lang;
      showModal := false;
    }
  }

  /** Mounting the screen: the name shown is English unless the store holds a
      preference, in which case it is that code's label. */
  method ShownAtStartup(stored: Option<string>) returns (shown: string)
    ensures !HasPreference(stored) ==> shown == English
    ensures HasPreference(stored) && IsKnownCode(stored.value) ==> shown == Languages[stored.value]
    ensures HasPreference(stored) && !IsKnownCode(stored.value) ==> shown == Tamil
  {
    var screen := new Login(stored);
    screen.CheckLng();
    shown := screen.selectLanguage;
    if HasPreference(stored) && !IsKnownCode(stored.value) {
      UnknownCodeFallsBack(stored.value);
    }
  }

  /** A choice made in the selector survives a restart of the screen: a known
      name is shown again as chosen, any other name comes back as Tamil. */
  method ShownAfterRestart(stored: Option<string>, lang: string) returns (shown: string)
    ensures IsKnownLabel(lang) ==> shown == lang
    ensures !IsKnownLabel(lang) ==> shown == Tamil
  {
    var screen := new Login(stored);
    screen.OnSelect(lang);
    var next := new Login(screen.storedLang);
    next.CheckLng();
    shown := next.selectLanguage;
    if IsKnownLabel(lang) {
      LabelRoundTrip(lang);
    } else {
      UnknownLabelFallsBack(lang);
    }
  }

}
