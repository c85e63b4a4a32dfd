/** The locale resolver of the login screen: the two chains of conditional
    expressions that turn a stored language code into the name shown in the
    language selector, and a selected name back into the code to store.
    Both chains end in a catch-all branch (Tamil), so both are total over
    arbitrary strings; on the four known entries they are inverse to each other. */
module Locale {

  const English: string := "English"
  const Hindi: string := "हिंदी"
  const Punjabi: string := "ਪੰਜਾਬੀ"
  const Tamil: string := "தமிழ்"

  /** The closed table of supported languages, from code to display name. It is
      the reference against which the two conditional chains are checked. */
  const Languages: map<string, string> :=
    map["en" := English, "hi" := Hindi, "pa" := Punjabi, "ta" := Tamil]

  predicate IsKnownCode(code: string) {
    code in Languages
  }

  /** The display names the selector offers: the values of the table. */
  const Labels: set<string> := {English, Hindi, Punjabi, Tamil}

  predicate IsKnownLabel(name: string) {
    name in Labels
  }

  /** Code to display name, in the order the source tests the codes: 'en', 'hi',
      'pa', and everything else is shown as Tamil. */
  function CodeToLabel(code: string): (name: string)
    ensures IsKnownLabel(name)
    ensures IsKnownCode(code) ==> name == Languages[code]
  {
    if code == "en" then English
    else if code == "hi" then Hindi
    else if code == "pa" then Punjabi
    else Tamil
  }

  /** Display name to code, in the order the source tests the names: English,
      Hindi, Punjabi, and everything else is stored as 'ta'. */
  function LabelToCode(name: string): (code: string)
    ensures IsKnownCode(code)
    ensures IsKnownLabel(name) ==> Languages[code] == name
  {
    if name == English then "en"
    else if name == Hindi then "hi"
    else if name == Punjabi then "pa"
    else "ta"
  }

  /** The names offered are exactly the names of the table. */
  lemma LabelsAreTableValues()
    ensures Languages.Values == Labels
  {
    forall name | name in Labels ensures name in Languages.Values {
      var code := LabelToCode(name);
      assert Languages[code] == name;
    }
  }

  /** No two codes of the table share a display name: the table is a bijection
      between the four codes and the four names. */
  lemma LanguagesInjective(c1: string, c2: string)
    requires IsKnownCode(c1) && IsKnownCode(c2)
    ensures Languages[c1] == Languages[c2] ==> c1 == c2
  {
  }

  /** Every code in the table round-trips through its display name. */
  lemma CodeRoundTrip(code: string)
    requires IsKnownCode(code)
    ensures LabelToCode(CodeToLabel(code)) == code
  {
  }

  /** Every display name in the table round-trips through its code. */
  lemma LabelRoundTrip(name: string)
    requires IsKnownLabel(name)
    ensures CodeToLabel(LabelToCode(name)) == name
  {
  }

  /** Off the table, every code is shown as Tamil, and storing that name back
      yields 'ta': the round trip normalises an unknown code to 'ta'. */
  lemma UnknownCodeFallsBack(code: string)
    requires !IsKnownCode(code)
    ensures CodeToLabel(code) == Tamil
    ensures LabelToCode(CodeToLabel(code)) == "ta"
  {
  }

  /** Off the table, every name is stored as 'ta', which is shown as Tamil. */
  lemma UnknownLabelFallsBack(name: string)
    requires !IsKnownLabel(name)
    ensures LabelToCode(name) == "ta"
    ensures CodeToLabel(LabelToCode(name)) == Tamil
  {
  }

}
