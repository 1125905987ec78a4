/**
 * The quiz session: which question is shown, the running score, the order in
 * which the four options are displayed, how a submitted answer is scored,
 * and how progress is restored from and written to the progress file.
 */
module Quiz {
  import opened Wrappers
  import opened QuestionParser

  /** The four option buttons, top to bottom. */
  datatype Slot = A | B | C | D
  {
    /** The position of the button among the displayed options. */
    function Index(): nat
    {
      match this
      case A => 0
      case B => 1
      case C => 2
      case D => 3
    }

    /** The letter the button's label starts with. */
    function Label(): char
    {
      match this
      case A => 'A'
      case B => 'B'
      case C => 'C'
      case D => 'D'
    }
  }

  /** The button at a display position. */
  function SlotAt(k: nat): (slot: Slot)
    requires k < 4
    ensures slot.Index() == k
  {
    if k == 0 then A else if k == 1 then B else if k == 2 then C else D
  }

  /** Python's `s[:-1]`: the string without its last character, or '' for ''. */
  function DropLast(s: string): (r: string)
    ensures |s| == 0 ==> r == []
    ensures |s| > 0 ==> r + [s[|s| - 1]] == s
  {
    if |s| == 0 then [] else s[..|s| - 1]
  }

  /** Stripping the label letter that was appended gives back the option text. */
  lemma DropLastAppended(text: string, letter: char)
    ensures DropLast(text + [letter]) == text
  {
    assert (text + [letter])[..|text|] == text;
  }

  /** The order the buttons show: shuffled when randomization is on, file order otherwise. */
  function Displayed(randomize: bool, shuffled: seq<string>, options: seq<string>): seq<string>
  {
    if randomize then shuffled else options
  }

  /** `shuffled` lists the same options, each as often, in some order. */
  predicate IsShuffleOf(shuffled: seq<string>, options: seq<string>)
  {
    multiset(shuffled) == multiset(options)
  }

  /**
   * The text of the checked button followed by its label letter, or '' when
   * no button is checked. `randomize` is the flag the selection reads, which
   * is passed in because it need not be the session's own flag.
   */
  function GetSelectedOption(checked: Option<Slot>, randomize: bool, shuffled: seq<string>, options: seq<string>): (r: string)
    requires |options| == 4
    requires randomize && checked.Some? ==> checked.value.Index() < |shuffled|
    ensures r == [] <==> checked.None?
    ensures checked.Some? ==>
      r[|r| - 1] == checked.value.Label()
      && DropLast(r) == Displayed(randomize, shuffled, options)[checked.value.Index()]
  {
    match checked
    case None => ""
    case Some(slot) =>
      var text := if randomize then shuffled[slot.Index()] else options[slot.Index()];
      DropLastAppended(text, slot.Label());
      text + [slot.Label()]
  }

  /** A selection is scored correct when, label stripped, it equals the correct option. */
  predicate IsCorrect(selected: string, correctOption: string)
  {
    DropLast(selected) == correctOption
  }

  /**
   * What the comparison accepts: for a non-empty option, exactly the option
   * followed by one more character; for an empty option, a selection of at
   * most one character.
   */
  lemma IsCorrectIff(selected: string, correctOption: string)
    ensures correctOption != [] ==>
      (IsCorrect(selected, correctOption) <==> exists c :: selected == correctOption + [c])
    ensures correctOption == [] ==> (IsCorrect(selected, correctOption) <==> |selected| <= 1)
  {
    if IsCorrect(selected, correctOption) && selected != [] {
      assert selected == correctOption + [selected[|selected| - 1]];
    }
    if exists c :: selected == correctOption + [c] {
      var c :| selected == correctOption + [c];
      DropLastAppended(correctOption, c);
    }
  }

  /** With nothing checked the answer is never scored correct, since every option is non-empty. */
  lemma NoSelectionNeverCorrect(q: Question, randomize: bool, shuffled: seq<string>)
    requires WellFormed(q)
    ensures !IsCorrect(GetSelectedOption(None, randomize, shuffled, q.options), q.options[0])
  {
    assert IsField(q.options[0]);
  }

  /** A checked button is scored correct exactly when the text it shows is the first option. */
  lemma CorrectIffShownText(q: Question, randomize: bool, shuffled: seq<string>, slot: Slot)
    requires WellFormed(q)
    requires randomize ==> slot.Index() < |shuffled|
    ensures IsCorrect(GetSelectedOption(Some(slot), randomize, shuffled, q.options), q.options[0])
        <==> Displayed(randomize, shuffled, q.options)[slot.Index()] == q.answer
  {
  }

  /** With randomization off, button A always shows the first option, so A is always scored correct. */
  lemma InOrderSlotAIsCorrect(q: Question, shuffled: seq<string>)
    requires WellFormed(q)
    ensures IsCorrect(GetSelectedOption(Some(A), false, shuffled, q.options), q.answer)
  {
  }

  /**
   * With randomization on, whatever the order, some button shows the first
   * option, and the buttons scored correct are exactly those showing it.
   */
  lemma ShuffledHasCorrectSlot(q: Question, shuffled: seq<string>)
    requires WellFormed(q)
    requires IsShuffleOf(shuffled, q.options)
    ensures |shuffled| == 4
    ensures exists slot: Slot :: IsCorrect(GetSelectedOption(Some(slot), true, shuffled, q.options), q.answer)
  {
    assert |shuffled| == |multiset(shuffled)| == |multiset(q.options)| == 4;
    assert q.options[0] in multiset(q.options);
    assert q.options[0] in shuffled;
    var k :| 0 <= k < 4 && shuffled[k] == q.options[0];
    var slot := SlotAt(k);
    CorrectIffShownText(q, true, shuffled, slot);
  }

  /** A session's progress: the index of the question shown and the score so far. */
  datatype Progress = Progress(index: int, score: int)

  /** What reading the progress file yields. */
  datatype ProgressFile =
    | Missing                           // the file does not exist
    | Corrupt                           // the file is empty or not valid JSON
    | Parsed(fields: map<string, int>)  // the JSON object in the file

  const IndexKey: string := "current_question_index"
  const ScoreKey: string := "score"

  /** Python's `d.get(key, 0)`. */
  function GetOrZero(fields: map<string, int>, key: string): int
  {
    if key in fields then fields[key] else 0
  }

  /**
   * The progress a session starts from: nothing stored or unreadable means a
   * fresh start, and a key missing from the stored object counts as 0.
   */
  function RestoreProgress(file: ProgressFile): (p: Progress)
    ensures !file.Parsed? ==> p == Progress(0, 0)
    ensures file.Parsed? && IndexKey in file.fields ==> p.index == file.fields[IndexKey]
    ensures file.Parsed? && IndexKey !in file.fields ==> p.index == 0
    ensures file.Parsed? && ScoreKey in file.fields ==> p.score == file.fields[ScoreKey]
    ensures file.Parsed? && ScoreKey !in file.fields ==> p.score == 0
  {
    match file
    case Parsed(fields) => Progress(GetOrZero(fields, IndexKey), GetOrZero(fields, ScoreKey))
    case _ => Progress(0, 0)
  }

  /** The JSON object written to the progress file. */
  function ProgressRecord(p: Progress): (fields: map<string, int>)
    ensures fields.Keys == {IndexKey, ScoreKey}
  {
    map[IndexKey := p.index, ScoreKey := p.score]
  }

  /** Restoring what was saved gives back the saved progress. */
  lemma RestoreAfterSave(p: Progress)
    ensures RestoreProgress(Parsed(ProgressRecord(p))) == p
  {
    assert IndexKey != ScoreKey;
  }

  /** Saving a freshly restored progress file with exactly the two keys rewrites the same object. */
  lemma SaveAfterRestore(fields: map<string, int>)
    requires fields.Keys == {IndexKey, ScoreKey}
    ensures ProgressRecord(RestoreProgress(Parsed(fields))) == fields
  {
    var again := ProgressRecord(RestoreProgress(Parsed(fields)));
    assert again.Keys == fields.Keys;
    forall key | key in fields ensures again[key] == fields[key] {
      assert key == IndexKey || key == ScoreKey;
    }
  }

  /** The quiz window's state, without its widgets. */
  class QuizApp {
    const questions: seq<Question>
    const randomizeOptions: bool
    var currentQuestionIndex: int
    var score: int
    var shuffledOptions: seq<string>

    /**
     * Every question is a record of the loader, the index is at most the
     * number of questions, and while a question is shown with randomization
     * on, the displayed order is a shuffle of its options.
     */
    ghost predicate Valid()
      reads this
    {
      && (forall k :: 0 <= k < |questions| ==> WellFormed(questions[k]))
      && 0 <= currentQuestionIndex <= |questions|
      && (randomizeOptions && currentQuestionIndex < |questions| ==>
            IsShuffleOf(shuffledOptions, questions[currentQuestionIndex].options))
    }

    /** The progress the session would save. */
    function State(): Progress
      reads this
    {
      Progress(currentQuestionIndex, score)
    }

    /**
     * Starts a session: restores progress from the progress file and shows
     * the question it points at. `shuffled` is the order the shuffle picks
     * for that question.
     */
    constructor (questions: seq<Question>, randomizeOptions: bool, file: ProgressFile, shuffled: seq<string>)
      requires forall k :: 0 <= k < |questions| ==> WellFormed(questions[k])
      requires 0 <= RestoreProgress(file).index < |questions|
      requires randomizeOptions ==> IsShuffleOf(shuffled, questions[RestoreProgress(file).index].options)
      ensures Valid()
      ensures this.questions == questions && this.randomizeOptions == randomizeOptions
      ensures State() == RestoreProgress(file)
      ensures shuffledOptions == if randomizeOptions then shuffled else []
    {
      this.questions := questions;
      this.randomizeOptions := randomizeOptions;
      currentQuestionIndex := 0;
      score := 0;
      shuffledOptions := [];
      new;
      LoadUserProgress(file);
      ShowQuestion(currentQuestionIndex, shuffled);
    }

    /** Sets the index and the score from the progress file. */
    method LoadUserProgress(file: ProgressFile)
      modifies this
      ensures State() == RestoreProgress(file)
      ensures shuffledOptions == old(shuffledOptions)
    {
      match file {
        case Parsed(progress) =>
          currentQuestionIndex := GetOrZero(progress, IndexKey);
          score := GetOrZero(progress, ScoreKey);
        case Corrupt =>
          currentQuestionIndex := 0;
          score := 0;
        case Missing =>
          currentQuestionIndex := 0;
          score := 0;
      }
    }

    /** Displays the current question's options in the order `shuffled`. */
    method ShuffleOptions(shuffled: seq<string>)
      requires 0 <= currentQuestionIndex < |questions|
      requires IsShuffleOf(shuffled, questions[currentQuestionIndex].options)
      modifies this
      ensures State() == old(State())
      ensures shuffledOptions == shuffled
      ensures IsShuffleOf(shuffledOptions, questions[currentQuestionIndex].options)
    {
      shuffledOptions := shuffled;
    }

    /** Shows question `index`; with randomization on, its options are shuffled first. */
    method ShowQuestion(index: int, shuffled: seq<string>)
      requires 0 <= index < |questions|
      requires randomizeOptions ==> 0 <= currentQuestionIndex < |questions|
      requires randomizeOptions ==> IsShuffleOf(shuffled, questions[currentQuestionIndex].options)
      modifies this
      ensures shuffledOptions == if randomizeOptions then shuffled else old(shuffledOptions)
      ensures State() == old(State())
    {
      if randomizeOptions {
        ShuffleOptions(shuffled);
      }
    }

    /**
     * The "next" button: scores the checked answer against the first option
     * of the current question, advances to the next question, saves the
     * progress, and either shows the next question or reports completion.
     * `randomizeGlobal` is the flag the selection reads; `shuffled` is the
     * order the shuffle picks for the next question.
     */
    method ShowNextQuestion(checked: Option<Slot>, randomizeGlobal: bool, shuffled: seq<string>)
      returns (correct: bool, completed: bool, saved: map<string, int>)
      requires Valid() && currentQuestionIndex < |questions|
      requires randomizeGlobal && checked.Some? ==> checked.value.Index() < |shuffledOptions|
      requires randomizeOptions && currentQuestionIndex + 1 < |questions| ==>
        IsShuffleOf(shuffled, questions[currentQuestionIndex + 1].options)
      modifies this
      ensures Valid()
      ensures correct == IsCorrect(
        GetSelectedOption(checked, randomizeGlobal, old(shuffledOptions), questions[old(currentQuestionIndex)].options),
        questions[old(currentQuestionIndex)].answer)
      ensures currentQuestionIndex == old(currentQuestionIndex) + 1
      ensures score == if correct then old(score) + 1 else old(score)
      ensures old(score) <= old(currentQuestionIndex) ==> score <= currentQuestionIndex
      ensures completed <==> currentQuestionIndex == |questions|
      ensures saved == ProgressRecord(State())
      ensures RestoreProgress(Parsed(saved)) == State()
      ensures shuffledOptions == if randomizeOptions && !completed then shuffled else old(shuffledOptions)
    {
      var selectedOption := GetSelectedOption(checked, randomizeGlobal, shuffledOptions, questions[currentQuestionIndex].options);
      var correctOption := questions[currentQuestionIndex].options[0];
      correct := DropLast(selectedOption) == correctOption;
      if correct {
        score := score + 1;
      }
      currentQuestionIndex := currentQuestionIndex + 1;
      saved := ProgressRecord(State());
      RestoreAfterSave(State());
      completed := !(currentQuestionIndex < |questions|);
      if !completed {
        ShowQuestion(currentQuestionIndex, shuffled);
      }
    }
  }
}
