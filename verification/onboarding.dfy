/**
 * The onboarding wizard: the nickname rule shared with the profile editor,
 * the birth date assembled from three text fields and read back from the
 * stored profile, and the step machine driven by "next", "back" and
 * "skip the quiz". Saving the profile and fetching the latest quiz result
 * are parameters: whether the save succeeded, and what the fetch produced.
 */
module Onboarding {
  import opened Wrappers
  import opened Text
  import opened Js

  /** One character of the class `[a-zA-Z0-9._-]`. */
  predicate NicknameChar(c: char) {
    'a' <= c <= 'z' || 'A' <= c <= 'Z' || IsDigit(c) || c == '.' || c == '_' || c == '-'
  }

  /** The regular expression `^[a-zA-Z0-9._-]+$`, matched one character at a time. */
  function MatchesNicknamePattern(s: string): (ok: bool)
    ensures ok <==> |s| >= 1 && forall i :: 0 <= i < |s| ==> NicknameChar(s[i])
  {
    |s| >= 1 && NicknameChar(s[0]) && (|s| == 1 || MatchesNicknamePattern(s[1..]))
  }

  /**
   * `validateNickname`: the empty nickname is accepted (the blank check
   * lives elsewhere); any other must match the pattern.
   */
  function ValidateNickname(name: string): (ok: bool)
    ensures ok <==> forall i :: 0 <= i < |name| ==> NicknameChar(name[i])
  {
    name == "" || MatchesNicknamePattern(name)
  }

  /** Validity is a property of each character: a nickname is valid iff both halves are. */
  lemma NicknameConcat(a: string, b: string)
    ensures ValidateNickname(a + b) <==> ValidateNickname(a) && ValidateNickname(b)
  {
    if ValidateNickname(a + b) {
      assert forall i :: 0 <= i < |a| ==> a[i] == (a + b)[i];
      assert forall i :: 0 <= i < |b| ==> b[i] == (a + b)[|a| + i];
    }
  }

  /** A valid nickname holds no whitespace, so trimming leaves it alone and only "" is blank. */
  lemma ValidNicknameIsTrimmed(name: string)
    requires ValidateNickname(name)
    ensures Trim(name) == name
    ensures IsBlank(name) <==> name == ""
  {
    if name != "" {
      assert !IsWhitespace(name[0]);
      assert !IsWhitespace(name[|name| - 1]);
      assert LeadingSpace(name) == 0;
      assert SpaceFreeEnd(name) == |name|;
    }
  }

  /** `s.padStart(2, '0')`. */
  function Pad2(s: string): (r: string)
    ensures |r| == if |s| >= 2 then |s| else 2
    ensures r[|r| - |s|..] == s
    ensures forall i :: 0 <= i < |r| - |s| ==> r[i] == '0'
  {
    if |s| >= 2 then s else seq(2 - |s|, _ => '0') + s
  }

  /** Padding adds only zeros, so it adds no '.', and padding twice is padding once. */
  lemma Pad2Facts(s: string)
    ensures ('.' in Pad2(s)) <==> ('.' in s)
    ensures Pad2(Pad2(s)) == Pad2(s)
    ensures Pad2(s) != ""
  {
    if |s| < 2 {
      var zeros := seq(2 - |s|, _ => '0');
      assert Pad2(s) == zeros + s;
      assert '.' !in zeros by {
        forall i | 0 <= i < |zeros| ensures zeros[i] != '.' { }
      }
    }
  }

  /** The three birth-date fields of the form. */
  datatype BirthFields = BirthFields(year: string, month: string, day: string)

  /**
   * The saved birth date: "Y.MM.DD" with month and day padded to two
   * digits when all three fields are filled in, and "" otherwise.
   */
  function CombineBirthDate(f: BirthFields): (r: string)
    ensures r == "" <==> f.year == "" || f.month == "" || f.day == ""
    ensures r != "" ==> r == f.year + "." + Pad2(f.month) + "." + Pad2(f.day)
  {
    if f.year != "" && f.month != "" && f.day != "" then
      f.year + "." + Pad2(f.month) + "." + Pad2(f.day)
    else ""
  }

  /**
   * Filling the form from a stored profile: a stored date that splits on
   * '.' into exactly three parts fills the fields; anything else leaves
   * them at their initial "".
   */
  function FillBirthDate(birthDate: Option<string>): (f: BirthFields)
    ensures !NonEmpty(birthDate) ==> f == BirthFields("", "", "")
    ensures '.' !in f.year && '.' !in f.month && '.' !in f.day
    ensures NonEmpty(birthDate) && f != BirthFields("", "", "") ==>
      birthDate.value == f.year + "." + f.month + "." + f.day
  {
    if NonEmpty(birthDate) then
      var parts := Split(birthDate.value, '.');
      if |parts| == 3 then
        JoinThree(parts, '.');
        BirthFields(parts[0], parts[1], parts[2])
      else BirthFields("", "", "")
    else BirthFields("", "", "")
  }

  /** Joining three parts puts the separator between them. */
  lemma JoinThree(parts: seq<string>, sep: char)
    requires |parts| == 3
    ensures Join(parts, sep) == parts[0] + [sep] + parts[1] + [sep] + parts[2]
  {
    assert parts[1..][1..] == parts[2..];
    assert Join(parts[1..], sep) == parts[1] + [sep] + parts[2];
    assert Join(parts, sep) == parts[0] + [sep] + (parts[1] + [sep] + parts[2]);
  }

  /** The saved date's three fields: the year, and month and day padded. */
  function SavedParts(f: BirthFields): seq<string> {
    [f.year, Pad2(f.month), Pad2(f.day)]
  }

  lemma SavedDateSplits(f: BirthFields)
    requires f.year != "" && f.month != "" && f.day != ""
    requires '.' !in f.year && '.' !in f.month && '.' !in f.day
    ensures Split(CombineBirthDate(f), '.') == SavedParts(f)
  {
    var parts := SavedParts(f);
    SavedDateJoins(f);
    assert forall i :: 0 <= i < |parts| ==> '.' !in parts[i] by {
      Pad2Facts(f.month);
      Pad2Facts(f.day);
    }
    SplitJoin(parts, '.');
  }

  /** The saved date is its three fields joined with '.'. */
  lemma SavedDateJoins(f: BirthFields)
    requires f.year != "" && f.month != "" && f.day != ""
    ensures CombineBirthDate(f) == Join(SavedParts(f), '.')
  {
    JoinThree(SavedParts(f), '.');
  }

  /** A saved date of dot-free fields splits into the fields, month and day padded. */
  lemma BirthDateReadBack(f: BirthFields)
    requires f.year != "" && f.month != "" && f.day != ""
    requires '.' !in f.year && '.' !in f.month && '.' !in f.day
    ensures FillBirthDate(Some(CombineBirthDate(f))) == BirthFields(f.year, Pad2(f.month), Pad2(f.day))
  {
    SavedDateSplits(f);
  }

  /**
   * Reading back a saved date and saving it again stores the same string:
   * the padding is already in place.
   */
  lemma BirthDateRoundTrip(f: BirthFields)
    requires f.year != "" && f.month != "" && f.day != ""
    requires '.' !in f.year && '.' !in f.month && '.' !in f.day
    ensures CombineBirthDate(FillBirthDate(Some(CombineBirthDate(f)))) == CombineBirthDate(f)
  {
    BirthDateReadBack(f);
    Pad2Facts(f.month);
    Pad2Facts(f.day);
  }

  /** What step 4 saves: the stored user with these fields replaced. */
  datatype Saved = Saved(nickname: string, bio: string, profileImage: string, birthDate: string, gender: string)

  /**
   * The wizard's state. `nicknameError` is set only by editing the nickname;
   * the nickname loaded from the stored profile is not validated.
   */
  datatype State = State(
    step: int,
    hasUser: bool,
    nickname: string,
    nicknameError: bool,
    bio: string,
    profileImage: string,
    birth: BirthFields,
    gender: string)

  /** Typing into the nickname field: the value is kept and validated at once. */
  function ChangeNickname(s: State, value: string): (r: State)
    ensures r.nickname == value
    ensures r.nicknameError <==> exists i :: 0 <= i < |value| && !NicknameChar(value[i])
    ensures r.(nickname := s.nickname, nicknameError := s.nicknameError) == s
  {
    s.(nickname := value, nicknameError := !ValidateNickname(value))
  }

  /** The profile step 4 saves. */
  function Payload(s: State): Saved {
    Saved(s.nickname, s.bio, s.profileImage, CombineBirthDate(s.birth), s.gender)
  }

  /**
   * `handleNext`, with `saveOk` the outcome of saving the profile. The
   * second component is the profile sent to be saved, if any.
   */
  function HandleNext(s: State, saveOk: bool): (r: (State, Option<Saved>))
    ensures r.0 == s.(step := r.0.step)
    ensures r.1.Some? <==> s.step == 4 && s.hasUser
    ensures r.1.Some? ==> r.1.value == Payload(s)
    ensures s.step == 1 ==> r.0.step == 2
    ensures s.step == 2 ==> r.0.step == 3
    ensures s.step == 3 ==> r.0.step == (if IsBlank(s.nickname) || s.nicknameError then 3 else 4)
    ensures s.step == 4 ==> r.0.step == (if !s.hasUser || saveOk then 5 else 4)
    ensures !(1 <= s.step <= 4) ==> r.0 == s
  {
    if s.step == 1 then (s.(step := 2), None)
    else if s.step == 2 then (s.(step := 3), None)
    else if s.step == 3 then
      if Trim(s.nickname) == "" || s.nicknameError then (s, None)
      else (s.(step := 4), None)
    else if s.step == 4 then
      if s.hasUser then
        (if saveOk then s.(step := 5) else s, Some(Payload(s)))
      else (s.(step := 5), None)
    else (s, None)
  }

  /** `handleBack`: one step back, never below step 1. */
  function HandleBack(s: State): (r: State)
    ensures r == s.(step := r.step)
    ensures r.step == if s.step > 1 then s.step - 1 else s.step
  {
    if s.step > 1 then s.(step := s.step - 1) else s
  }

  /** What skipping the quiz leads to. */
  datatype SkipOutcome<R> = ShowResult(result: R) | Complete

  /**
   * `handleSkipQuiz`, with `latest` the outcome of fetching the user's latest
   * result: a result shows it (step 6); no result, or a failed fetch, completes.
   */
  function HandleSkipQuiz<R>(s: State, latest: Result<Option<R>, string>): (r: (State, SkipOutcome<R>))
    ensures r.1.ShowResult? <==> latest.Success? && latest.value.Some?
    ensures r.1.ShowResult? ==> r.1.result == latest.value.value && r.0 == s.(step := 6)
    ensures r.1.Complete? ==> r.0 == s
  {
    match latest
    case Success(Some(result)) => (s.(step := 6), ShowResult(result))
    case _ => (s, Complete)
  }

  /** Every forward move among steps 1 to 4 is undone by one "back". */
  lemma BackUndoesNext(s: State, saveOk: bool)
    requires 1 <= s.step
    ensures var r := HandleNext(s, saveOk).0;
      r.step != s.step ==> HandleBack(r) == s
  {
  }

  /** The wizard never leaves steps 1 to 6. */
  lemma StepsStayInRange(s: State, saveOk: bool, value: string)
    requires 1 <= s.step <= 6
    ensures 1 <= HandleNext(s, saveOk).0.step <= 6
    ensures 1 <= HandleBack(s).step <= 6
    ensures ChangeNickname(s, value).step == s.step
  {
  }

  /**
   * At step 3 an edited nickname decides the move: a non-empty valid one
   * advances, an invalid one keeps the wizard at step 3.
   */
  lemma EditedNicknameDecidesStep3(s: State, value: string, saveOk: bool)
    requires s.step == 3
    ensures value != "" && ValidateNickname(value) ==> HandleNext(ChangeNickname(s, value), saveOk).0.step == 4
    ensures !ValidateNickname(value) || value == "" ==> HandleNext(ChangeNickname(s, value), saveOk).0.step == 3
  {
    if ValidateNickname(value) {
      ValidNicknameIsTrimmed(value);
    }
  }
}
