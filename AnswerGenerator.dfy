/**
  The StackOverflow answer generator: two fixed tables of texts and one
  operation that composes an answer record from them.

  Every random draw the generator makes is passed in as a field of `Draws`,
  so that `GenerateAnswer` is a function of the draws. `ValidDraws` states the
  range each draw comes from.

  The table texts are written as concatenations of short literals (at word
  boundaries) so that the verifier can look inside them; each concatenation
  spells the generator's text exactly.
 */
module AnswerGenerator {
  import opened PyStr

  // The ten base answers, in table order.
  const Duplicate: string := "This question is " + "a duplicate of " + "a question from " + "2008."
  const UseJQuery: string := "Just use jQuery."
  const TurnItOff: string := "Have you tried " + "turning it off " + "and on again?"
  const WorksForMe: string := "Works on my " + "machine " + "¯\\_(ツ)_/¯"
  const DoingItWrong: string := "You're doing it " + "wrong. Use this " + "500-line " + "framework instead."
  const BlamePython: string := "The real problem " + "is that you're " + "using Python 3."
  const Haskell: string := "This is trivial " + "in Haskell."
  const ItDepends: string := "\"It depends\" " + "(proceeds to not " + "explain on what)"
  const Rtfm: string := "RTFM - it's " + "clearly documented " + "in the 1998 spec."
  const AsyncAwait: string := "Just use " + "async/await " + "(for your " + "synchronous problem)"

  /** The answer table. */
  const AnswerTable: seq<string> :=
    [Duplicate, UseJQuery, TurnItOff, WorksForMe, DoingItWrong, BlamePython, Haskell, ItDepends, Rtfm, AsyncAwait]

  /** The five comments a record may carry. */
  const CommentTable: seq<string> := [
    "-1 This doesn't " + "answer the question",
    "Accepted answer " + "is wrong but " + "has 10k upvotes",
    "\"This is the way\" " + "(from someone " + "with 200k rep)",
    "Why would anyone " + "use this?",
    "\"First post!\" " + "(on a 9-year-old " + "question)"
  ]

  /** The list the acceptance flag is chosen from. */
  const AcceptChoices: seq<bool> := [true, false, false]

  /** The fixed part of the version note, up to the version number. */
  const NoteHead: string := "\n\nNote: This " + "only works in " + "Python "

  /** The irrelevant code block appended to some answers. */
  const CodeBlock: string :=
    "\n\n```python\n" + "# Here's some " + "unrelated code\n" + "def solve_nothing():\n" + "    return 'not your " + "answer'\n```"

  /** The version note for Python `major.minor`, as the f-string renders it. */
  function VersionNote(major: int, minor: int): (r: string)
    requires 1 <= major <= 2 && 0 <= minor <= 7
    ensures |r| == |NoteHead| + 3 && r[..|NoteHead|] == NoteHead
    ensures r[|r| - 3] as int - '0' as int == major && r[|r| - 2] == '.' && r[|r| - 1] as int - '0' as int == minor
  {
    NoteHead + [DigitChar(major), '.', DigitChar(minor)]
  }

  /**
    The upvote bias test, on the final text: `"wrong"` in its lower-cased form,
    or `"jQuery"` (case-sensitive) in the text itself.
   */
  predicate BiasFires(text: string) {
    In("wrong", Lower(text)) || In("jQuery", text)
  }

  /** No element occurs twice. */
  predicate Distinct<T(==)>(s: seq<T>) {
    forall i, j :: 0 <= i < j < |s| ==> s[i] != s[j]
  }

  /**
    The random draws of one call, in the order the generator makes them.
    A draw whose branch is not taken (the version digits without a note,
    the second upvote draw without the bias) is simply not used.
   */
  datatype Draws = Draws(
    answerIndex: int,   // random.choice(self.answers), as an index
    addNote: bool,      // random.random() < 0.3
    major: int,         // random.randint(1, 2)
    minor: int,         // random.randint(0, 7)
    addCode: bool,      // random.random() < 0.4
    baseVotes: int,     // random.randint(-5, 1000)
    biasedVotes: int,   // random.randint(500, 5000)
    yearsAgo: int,      // random.randint(1, 12)
    acceptIndex: int,   // random.choice([True, False, False]), as an index
    count: int,         // random.randint(0, 3)
    picks: seq<int>     // the positions random.sample(self.comments, count) selects
  )

  /**
    The record `generate_answer` returns. The date is kept as its offset in
    days before the current time.
   */
  datatype AnswerRecord = AnswerRecord(
    answer: string,
    upvotes: int,
    accepted: bool,
    daysAgo: int,
    comments: seq<string>
  )

  /** The comment table has no repeated entry. */
  lemma CommentTableDistinct()
    ensures Distinct(CommentTable)
  {
    assert |CommentTable[0]| == 35 && |CommentTable[1]| == 44 && |CommentTable[2]| == 46;
    assert |CommentTable[3]| == 26 && |CommentTable[4]| == 40;
  }

  /**
    `random.sample`: the entries of `population` at the distinct positions
    `picks`, in the order they were picked.
   */
  function Sample<T>(population: seq<T>, picks: seq<int>): (r: seq<T>)
    requires forall j :: 0 <= j < |picks| ==> 0 <= picks[j] < |population|
    ensures |r| == |picks|
    ensures forall j :: 0 <= j < |r| ==> r[j] == population[picks[j]]
    ensures forall x :: x in r ==> x in population
    ensures Distinct(population) && Distinct(picks) ==> Distinct(r)
  {
    seq(|picks|, j requires 0 <= j < |picks| => population[picks[j]])
  }

  class StackOverflowAnswerGenerator {
    /** The tables set up at construction; never written afterwards. */
    const answers: seq<string> := AnswerTable
    const comments: seq<string> := CommentTable

    /** `__init__`: ten answers and five comments, each table without repeats. */
    constructor()
      ensures |answers| == 10 && |comments| == 5
      ensures Distinct(comments)
    {
      CommentTableDistinct();
    }
    /** Each draw lies in the range the random call that produces it returns. */
    predicate ValidDraws(d: Draws) {
      && 0 <= d.answerIndex < |answers|
      && 1 <= d.major <= 2
      && 0 <= d.minor <= 7
      && -5 <= d.baseVotes <= 1000
      && 500 <= d.biasedVotes <= 5000
      && 1 <= d.yearsAgo <= 12
      && 0 <= d.acceptIndex < |AcceptChoices|
      && 0 <= d.count <= 3
      && |d.picks| == d.count
      && Distinct(d.picks)
      && (forall j :: 0 <= j < |d.picks| ==> 0 <= d.picks[j] < |comments|)
    }

    /**
      `generate_answer`. The question is accepted and not read.
     */
    function GenerateAnswer(question: string, d: Draws): (r: AnswerRecord)
      requires ValidDraws(d)
      // the text starts with the chosen table entry, and is that entry when nothing is appended
      ensures answers[d.answerIndex] <= r.answer && |r.answer| > 0
      ensures !d.addNote && !d.addCode ==> r.answer == answers[d.answerIndex]
      // the bias decides which range the upvotes come from; nothing is clamped
      ensures BiasFires(r.answer) ==> 500 <= r.upvotes <= 5000
      ensures !BiasFires(r.answer) ==> -5 <= r.upvotes <= 1000
      ensures -5 <= r.upvotes <= 5000
      ensures r.accepted <==> d.acceptIndex == 0
      ensures 365 <= r.daysAgo <= 4380 && r.daysAgo % 365 == 0 && r.daysAgo / 365 == d.yearsAgo
      // 0..3 distinct comments from the table, in the order they were sampled
      ensures |r.comments| == d.count <= 3
      ensures forall j :: 0 <= j < |r.comments| ==> r.comments[j] == comments[d.picks[j]]
      ensures forall c :: c in r.comments ==> c in comments
      ensures Distinct(r.comments)
    {
      var base := answers[d.answerIndex];
      var withNote := if d.addNote then base + VersionNote(d.major, d.minor) else base;
      var text := if d.addCode then withNote + CodeBlock else withNote;
      var upvotes := if BiasFires(text) then d.biasedVotes else d.baseVotes;
      CommentTableDistinct();
      AnswerRecord(text, upvotes, AcceptChoices[d.acceptIndex], 365 * d.yearsAgo, Sample(comments, d.picks))
    }
  }
}
