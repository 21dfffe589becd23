/**
 * The problem service's local logic: the difficulty text for a class level, the
 * shape of the requested items (whether `options` is asked for and required), and
 * the cleanup of the parsed reply, which normalises every question so that it ends
 * in " = ?". The call to the text-generation service and the JSON parsing are not
 * modelled; their outcome enters as a `Reply`.
 */
module GeminiService {
  import opened Types
  import opened JsString

  const StandardDifficulty := "standard difficulty"
  const Primary1 := "very simple single-digit addition and subtraction (e.g., 2 + 3, 5 - 1). The total should not exceed 10."
  const Primary2 := "single and double-digit addition/subtraction (e.g., 15 + 4, 20 - 8). No carrying or borrowing needed."
  const Primary3 := "double-digit addition/subtraction with carrying/borrowing, and simple single-digit multiplication/division (e.g., 2x3, 10\U{F7}2)."
  const Primary4 := "multi-digit addition/subtraction, and multiplication/division facts up to 12x12."
  const Primary5 := "complex multi-digit multiplication and division, and problems involving mixed operations."
  const Primary6 := "all operations, including problems with simple fractions, decimals, or multi-step word problems."

  /** `getDifficultyDescription`: a fixed text per class level 1 to 6, a default for anything else. */
  function DifficultyDescription(level: int): (r: string)
    ensures (1 <= level <= 6) <==> r != StandardDifficulty
  {
    match level
    case 1 => assert |Primary1| != |StandardDifficulty|; Primary1
    case 2 => assert |Primary2| != |StandardDifficulty|; Primary2
    case 3 => assert |Primary3| != |StandardDifficulty|; Primary3
    case 4 => assert |Primary4| != |StandardDifficulty|; Primary4
    case 5 => assert |Primary5| != |StandardDifficulty|; Primary5
    case 6 => assert |Primary6| != |StandardDifficulty|; Primary6
    case _ => StandardDifficulty
  }

  /** The six class levels get six different descriptions. */
  lemma DifficultyLevelsDistinct(a: int, b: int)
    requires 1 <= a <= 6 && 1 <= b <= 6 && a != b
    ensures DifficultyDescription(a) != DifficultyDescription(b)
  {
    assert |Primary1| == 103 && |Primary2| == 101 && |Primary3| == 125;
    assert |Primary4| == 80 && |Primary5| == 89 && |Primary6| == 96;
  }

  /** The schema of one requested item: the fields it declares and those it requires. */
  datatype ItemSchema = ItemSchema(properties: seq<string>, required: seq<string>)

  /** Only Balloon Pop needs multiple-choice options. */
  function NeedsOptions(mode: GameMode): (needed: bool)
    ensures !needed <==> mode in {TreasureHunt, MathRace, MathNinja}
  {
    mode == BalloonPop
  }

  /** The item schema sent with the request for a game mode. */
  function ProblemSchema(mode: GameMode): (s: ItemSchema)
    ensures "options" in s.properties <==> NeedsOptions(mode)
    ensures "options" in s.required <==> NeedsOptions(mode)
    ensures "question" in s.required && "answer" in s.required
    ensures forall f :: f in s.required ==> f in s.properties
  {
    var base := ["question", "answer"];
    var extra := if NeedsOptions(mode) then ["options"] else [];
    ItemSchema(base + extra, if NeedsOptions(mode) then ["question", "answer", "options"] else ["question", "answer"])
  }

  const Suffix := " = ?"

  /** `s` ends with " = ?". */
  predicate EndsWithSuffix(s: string) {
    |s| >= |Suffix| && s[|s| - |Suffix|..] == Suffix
  }

  /** The question cleanup: drop the first " = ?", then the first "?", trim, and append " = ?". */
  function NormalizeQuestion(q: string): (r: string)
    ensures EndsWithSuffix(r)
    ensures Trimmed(r[..|r| - |Suffix|])
  {
    var core := Trim(ReplaceFirst(ReplaceFirst(q, Suffix, ""), "?", ""));
    assert (core + Suffix)[..|core|] == core;
    core + Suffix
  }

  /** How many question marks `s` holds. */
  function Marks(s: string): nat {
    multiset(s)['?']
  }

  /**
   * A question that ends in " = ?" and has no other "?" is cleaned to its trimmed
   * text followed by one " = ?".
   */
  lemma NormalizeAfterSuffix(x: string)
    requires '?' !in x
    ensures NormalizeQuestion(x + Suffix) == Trim(x) + Suffix
  {
    var s := x + Suffix;
    assert OccursAt(s, Suffix, |x|) by { assert s[|x|..|x| + |Suffix|] == Suffix; }
    forall j | 0 <= j < |x|
      ensures !OccursAt(s, Suffix, j)
    {
      assert s[j + 3] != '?' by {
        if j + 3 < |x| {
          assert s[j + 3] == x[j + 3];
        } else {
          assert s[j + 3] == Suffix[j + 3 - |x|];
        }
      }
      assert s[j..j + |Suffix|][3] == s[j + 3];
    }
    assert IndexOf(s, Suffix) == Some(|x|);
    assert s[..|x|] == x;
    assert s[|x| + |Suffix|..] == [];
    assert ReplaceFirst(s, Suffix, "") == x;
    IndexOfChar(x, '?');
  }

  /** A trimmed text without a question mark, followed by " = ?", is left as it is. */
  lemma NormalizeFixesCanonical(x: string)
    requires Trimmed(x) && '?' !in x
    ensures NormalizeQuestion(x + Suffix) == x + Suffix
  {
    NormalizeAfterSuffix(x);
    TrimOfTrimmed(x);
  }

  /** A question without any "?" is cleaned to its trimmed text followed by " = ?". */
  lemma NormalizeWithoutMarks(q: string)
    requires '?' !in q
    ensures NormalizeQuestion(q) == Trim(q) + Suffix
  {
    forall j | 0 <= j <= |q|
      ensures !OccursAt(q, Suffix, j)
    {
      if j + |Suffix| <= |q| {
        assert q[j..j + |Suffix|][3] == q[j + 3] != '?';
      }
    }
    assert ReplaceFirst(q, Suffix, "") == q;
    IndexOfChar(q, '?');
    assert ReplaceFirst(q, "?", "") == q;
  }

  /**
   * Cleaning keeps the text of the question: every character other than white
   * space, '=' and '?' occurs as often before the " = ?" of the result as in the
   * question.
   */
  lemma NormalizeKeepsContent(q: string, c: char)
    requires !IsWhiteSpace(c) && c != '=' && c != '?'
    ensures var r := NormalizeQuestion(q);
      multiset(r[..|r| - |Suffix|])[c] == multiset(q)[c]
  {
    var a := ReplaceFirst(q, Suffix, "");
    var b := ReplaceFirst(a, "?", "");
    var core := Trim(b);
    assert IsWhiteSpace(' ');
    assert multiset(Suffix)[c] == 0 && multiset("?")[c] == 0;
    ReplaceFirstRemoves(q, Suffix);
    ReplaceFirstRemoves(a, "?");
    TrimKeepsNonWhiteSpace(b, c);
    var r := NormalizeQuestion(q);
    assert r == core + Suffix;
    assert r[..|r| - |Suffix|] == core;
  }

  /** Normalising twice is the same as normalising once, for any question with at most one "?". */
  lemma NormalizeIdempotent(q: string)
    requires Marks(q) <= 1
    ensures NormalizeQuestion(NormalizeQuestion(q)) == NormalizeQuestion(q)
  {
    var core := Trim(ReplaceFirst(ReplaceFirst(q, Suffix, ""), "?", ""));
    CleanedCoreHasNoMark(q);
    assert NormalizeQuestion(q) == core + Suffix;
    NormalizeFixesCanonical(core);
  }

  /** With at most one "?" in the question, none is left in the cleaned text before " = ?". */
  lemma CleanedCoreHasNoMark(q: string)
    requires Marks(q) <= 1
    ensures '?' !in Trim(ReplaceFirst(ReplaceFirst(q, Suffix, ""), "?", ""))
  {
    var a := ReplaceFirst(q, Suffix, "");
    var b := ReplaceFirst(a, "?", "");
    ReplaceFirstRemoves(q, Suffix);
    ReplaceFirstRemoves(a, "?");
    IndexOfChar(a, '?');
    assert multiset(Suffix)['?'] == 1;
    assert multiset("?")['?'] == 1;
    if IndexOf(q, Suffix).Some? {
      assert multiset(a)['?'] == 0;
    }
    assert multiset(b)['?'] == 0;
    assert multiset(Trim(b)) <= multiset(b);
  }

  /**
   * With two question marks the second one survives the first pass ("a?b?" becomes
   * "ab? = ?")...
   */
  lemma NormalizeKeepsSecondMark(a: char, b: char)
    requires a != '?' && b != '?' && !IsWhiteSpace(a) && !IsWhiteSpace(b)
    ensures NormalizeQuestion([a, '?', b, '?']) == [a, b, '?'] + Suffix
  {
    var q := [a, '?', b, '?'];
    assert !OccursAt(q, Suffix, 0) by { assert q[0..4][0] == a; }
    assert ReplaceFirst(q, Suffix, "") == q;
    assert !OccursAt(q, "?", 0) by { assert q[0..1][0] == a; }
    assert OccursAt(q, "?", 1) by { assert q[1..2] == "?"; }
    ReplaceFirstAt(q, "?", "", 1);
    assert q[..1] + "" + q[2..] == [a, b, '?'];
    TrimOfTrimmed([a, b, '?']);
  }

  /** ... so normalising the result again removes it and changes the text ("ab? = ?" becomes "ab = ?"). */
  lemma NormalizeAgainRemovesIt(a: char, b: char)
    requires a != '?' && b != '?' && !IsWhiteSpace(a) && !IsWhiteSpace(b)
    ensures NormalizeQuestion([a, b, '?'] + Suffix) == [a, b] + Suffix
  {
    var q := [a, b, '?'] + Suffix;
    forall j | 0 <= j < 3
      ensures !OccursAt(q, Suffix, j)
    {
      assert q[j..j + 4][3] == q[j + 3] != '?';
    }
    assert OccursAt(q, Suffix, 3) by { assert q[3..7] == Suffix; }
    ReplaceFirstAt(q, Suffix, "", 3);
    var r := [a, b, '?'];
    assert q[..3] + "" + q[7..] == r;
    assert !OccursAt(r, "?", 0) by { assert r[0..1][0] == a; }
    assert !OccursAt(r, "?", 1) by { assert r[1..2][0] == b; }
    assert OccursAt(r, "?", 2) by { assert r[2..3] == "?"; }
    ReplaceFirstAt(r, "?", "", 2);
    assert r[..2] + "" + r[3..] == [a, b];
    TrimOfTrimmed([a, b]);
  }

  /** A parsed item of the reply. `question` is `None` when the field is missing or not a string. */
  datatype RawProblem = RawProblem(question: Option<string>, answer: int, options: Option<seq<int>>)

  /** The outcome of the service call and the JSON parse. */
  datatype Reply = Failed | Parsed(items: seq<RawProblem>)

  const GenerationError := "Failed to generate math problems. The AI model might be busy. Please try again."

  /** `p` is `raw` with its question normalised and every other field kept. */
  predicate CleanedFrom(p: Problem, raw: RawProblem) {
    && raw.question.Some?
    && p.question == NormalizeQuestion(raw.question.value)
    && p.answer == raw.answer
    && p.options == raw.options
  }

  /** Every item has a question. */
  predicate AllHaveQuestions(items: seq<RawProblem>) {
    forall i :: 0 <= i < |items| ==> items[i].question.Some?
  }

  /**
   * The cleanup `map`: every question normalised, answers and options kept, in order.
   * An item without a question makes the map throw, so nothing is returned.
   */
  function Cleanup(items: seq<RawProblem>): (r: Option<seq<Problem>>)
    ensures r.Some? <==> AllHaveQuestions(items)
    ensures r.Some? ==> |r.value| == |items| && forall i :: 0 <= i < |items| ==> CleanedFrom(r.value[i], items[i])
  {
    if AllHaveQuestions(items) then
      Some(seq(|items|, i requires 0 <= i < |items| =>
        Problem(NormalizeQuestion(items[i].question.value), items[i].answer, items[i].options)))
    else None
  }

  /** `generateMathProblems` after the call: all problems cleaned, or the one error message and nothing else. */
  function GenerateMathProblems(reply: Reply): (r: Result<seq<Problem>, string>)
    ensures r.Err? ==> r.error == GenerationError
    ensures r.Ok? <==> reply.Parsed? && AllHaveQuestions(reply.items)
    ensures r.Ok? ==> |r.value| == |reply.items|
    ensures r.Ok? ==> forall i :: 0 <= i < |r.value| ==> CleanedFrom(r.value[i], reply.items[i])
  {
    match reply
    case Failed => Err(GenerationError)
    case Parsed(items) =>
      match Cleanup(items)
      case None => Err(GenerationError)
      case Some(problems) => Ok(problems)
  }

  /** Every generated question ends with " = ?". */
  lemma GeneratedQuestionsEndWithSuffix(reply: Reply, i: nat)
    requires GenerateMathProblems(reply).Ok? && i < |GenerateMathProblems(reply).value|
    ensures EndsWithSuffix(GenerateMathProblems(reply).value[i].question)
  {
    var p := GenerateMathProblems(reply).value[i];
    assert CleanedFrom(p, reply.items[i]);
    var r := NormalizeQuestion(reply.items[i].question.value);
    assert p.question == r;
  }

}
