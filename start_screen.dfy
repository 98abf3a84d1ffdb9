/** The setup form (components/StartScreen.tsx): a preset category or a
    custom topic, a difficulty and a question count. */
module StartScreen {
  import opened Types

  /** The ids of the eight preset category buttons. */
  const Categories: seq<string> := [
    "Indian Movies", "Indian Music", "Indian Science", "Indian History",
    "Indian Geography", "Indian Sports", "Indian Tech", "Indian Art & Culture"
  ]

  /** The question counts the count selector offers. */
  predicate AllowedCount(n: nat)
  {
    n == 3 || n == 5 || n == 10
  }

  /** The characters `String.prototype.trim` removes: ECMAScript's WhiteSpace
      (tab, vertical tab, form feed, space, no-break space, byte order mark
      and the other space separators) and LineTerminator code points. */
  predicate IsJsWhitespace(c: char)
  {
    var u := c as int;
    || u == 0x09 || u == 0x0A || u == 0x0B || u == 0x0C || u == 0x0D || u == 0x20
    || u == 0xA0 || u == 0x1680 || (0x2000 <= u <= 0x200A)
    || u == 0x2028 || u == 0x2029 || u == 0x202F || u == 0x205F || u == 0x3000 || u == 0xFEFF
  }

  /** A text made of whitespace only (the empty text included). */
  predicate IsBlank(s: string)
  {
    forall i | 0 <= i < |s| :: IsJsWhitespace(s[i])
  }

  /** The index of the first non-whitespace character at or after `i`
      (`|s|` when there is none). */
  function SkipLeading(s: string, i: nat): (a: nat)
    requires i <= |s|
    ensures i <= a <= |s|
    ensures forall k | i <= k < a :: IsJsWhitespace(s[k])
    ensures a < |s| ==> !IsJsWhitespace(s[a])
    decreases |s| - i
  {
    if i < |s| && IsJsWhitespace(s[i]) then SkipLeading(s, i + 1) else i
  }

  /** The index just past the last non-whitespace character before `j`
      (0 when there is none). */
  function SkipTrailing(s: string, j: nat): (b: nat)
    requires j <= |s|
    ensures b <= j
    ensures forall k | b <= k < j :: IsJsWhitespace(s[k])
    ensures b > 0 ==> !IsJsWhitespace(s[b - 1])
  {
    if j > 0 && IsJsWhitespace(s[j - 1]) then SkipTrailing(s, j - 1) else j
  }

  /** `s.trim()`: the text between the leading and the trailing whitespace.
      It is empty exactly when the text is blank, and otherwise it starts and
      ends with a non-whitespace character. */
  function Trim(s: string): (r: string)
    ensures |r| <= |s|
    ensures r == [] <==> IsBlank(s)
    ensures r != [] ==> !IsJsWhitespace(r[0]) && !IsJsWhitespace(r[|r| - 1])
    ensures r != [] ==>
              exists a, b | 0 <= a <= b <= |s| :: r == s[a..b] && IsBlank(s[..a]) && IsBlank(s[b..])
  {
    var a := SkipLeading(s, 0);
    var b := SkipTrailing(s, |s|);
    if a < |s| then
      assert a < b;
      assert IsBlank(s[..a]) && IsBlank(s[b..]);
      s[a..b]
    else
      []
  }

  /** `customTopic.trim() ? customTopic : selectedCategory`: custom text that
      is not blank wins, untrimmed; otherwise the preset category is used. */
  function ResolveTopic(selectedCategory: string, customTopic: string): (topic: string)
    ensures !IsBlank(customTopic) ==> topic == customTopic
    ensures IsBlank(customTopic) ==> topic == selectedCategory
  {
    if Trim(customTopic) != "" then customTopic else selectedCategory
  }

  /** Submitting the form: the start request it issues, if any. A request is
      issued exactly when the resolved topic is non-empty, and it carries the
      resolved topic, the difficulty and the count. */
  function SubmitOutcome(selectedCategory: string, customTopic: string, difficulty: Difficulty, count: nat)
    : (started: Option<QuizSettings>)
    ensures started.Some? <==> !IsBlank(customTopic) || selectedCategory != ""
    ensures started.Some? ==>
              && started.value.topic == (if IsBlank(customTopic) then selectedCategory else customTopic)
              && started.value.difficulty == difficulty
              && started.value.questionCount == count
  {
    var finalTopic := ResolveTopic(selectedCategory, customTopic);
    if finalTopic != "" then Some(QuizSettings(finalTopic, difficulty, count)) else None
  }

  /** `disabled={!selectedCategory && !customTopic}` on the submit button. */
  predicate SubmitDisabled(selectedCategory: string, customTopic: string)
  {
    selectedCategory == "" && customTopic == ""
  }

  /** A disabled button never starts a quiz, but an enabled one need not:
      whitespace-only custom text enables the button and starts nothing. */
  lemma DisabledSubmitIsInert(selectedCategory: string, customTopic: string, difficulty: Difficulty, count: nat)
    ensures SubmitDisabled(selectedCategory, customTopic) ==>
              SubmitOutcome(selectedCategory, customTopic, difficulty, count) == None
    ensures selectedCategory == "" && customTopic != "" && IsBlank(customTopic) ==>
              && !SubmitDisabled(selectedCategory, customTopic)
              && SubmitOutcome(selectedCategory, customTopic, difficulty, count) == None
  {
  }

  /** No preset category id is blank. */
  lemma CategoriesNotBlank(id: string)
    requires id in Categories
    ensures !IsBlank(id)
  {
    var k :| 0 <= k < |Categories| && Categories[k] == id;
    assert id[0] == 'I';
  }

  /** The state of the setup form. */
  class Form {
    var selectedCategory: string
    var customTopic: string
    var difficulty: Difficulty
    var count: nat

    /** The category is empty or one of the presets, at most one of category
        and custom text is non-empty, and the count is one of those offered. */
    ghost predicate Valid()
      reads this
    {
      && (selectedCategory == "" || selectedCategory in Categories)
      && (selectedCategory == "" || customTopic == "")
      && AllowedCount(count)
    }

    predicate Disabled()
      reads this
    {
      SubmitDisabled(selectedCategory, customTopic)
    }

    /** The defaults: no category, no custom text, Medium, 5 questions. */
    constructor ()
      ensures Valid()
      ensures selectedCategory == "" && customTopic == "" && difficulty == Medium && count == 5
    {
      selectedCategory := "";
      customTopic := "";
      difficulty := Medium;
      count := 5;
    }

    /** Clicking a category button selects it and clears the custom text. */
    method ChooseCategory(id: string)
      requires Valid() && id in Categories
      modifies this
      ensures Valid()
      ensures selectedCategory == id && customTopic == ""
      ensures difficulty == old(difficulty) && count == old(count)
    {
      selectedCategory := id;
      customTopic := "";
    }

    /** Typing in the custom field sets the text and clears the category. */
    method TypeCustomTopic(text: string)
      requires Valid()
      modifies this
      ensures Valid()
      ensures customTopic == text && selectedCategory == ""
      ensures difficulty == old(difficulty) && count == old(count)
    {
      customTopic := text;
      selectedCategory := "";
    }

    /** Picking a difficulty from its selector. */
    method ChooseDifficulty(d: Difficulty)
      requires Valid()
      modifies this
      ensures Valid()
      ensures difficulty == d
      ensures selectedCategory == old(selectedCategory) && customTopic == old(customTopic) && count == old(count)
    {
      difficulty := d;
    }

    /** Picking a count from its selector, which offers 3, 5 and 10. */
    method ChooseCount(n: nat)
      requires Valid() && AllowedCount(n)
      modifies this
      ensures Valid()
      ensures count == n
      ensures selectedCategory == old(selectedCategory) && customTopic == old(customTopic)
      ensures difficulty == old(difficulty)
    {
      count := n;
    }

    /** Submitting the form: reads the fields and returns the one start
        request it issues, if any. In a valid form a started quiz always has
        a non-blank topic and an offered count. */
    method HandleSubmit() returns (started: Option<QuizSettings>)
      requires Valid()
      ensures started == SubmitOutcome(selectedCategory, customTopic, difficulty, count)
      ensures started.Some? ==> !IsBlank(started.value.topic) && AllowedCount(started.value.questionCount)
    {
      started := SubmitOutcome(selectedCategory, customTopic, difficulty, count);
      if selectedCategory != "" && IsBlank(customTopic) {
        CategoriesNotBlank(selectedCategory);
      }
    }
  }
}
