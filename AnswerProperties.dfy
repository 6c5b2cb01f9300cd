/**
  What `generate_answer` guarantees about the record it builds, over all
  draws: which table entries make the upvote bias fire, the layout and order
  of the appended suffixes, that the text tells which draws produced it, and
  that the question plays no part.
 */
module AnswerProperties {
  import opened PyStr
  import opened AnswerGenerator
  import opened TableFacts

  /** The version note appended by the draws, or nothing. */
  function NoteOf(d: Draws): string
    requires 1 <= d.major <= 2 && 0 <= d.minor <= 7
  {
    if d.addNote then VersionNote(d.major, d.minor) else ""
  }

  /** The code block appended by the draws, or nothing. */
  function CodeOf(d: Draws): string {
    if d.addCode then CodeBlock else ""
  }

  /** The text is the chosen entry, then the version note if drawn, then the code block if drawn. */
  lemma Layout(g: StackOverflowAnswerGenerator, q: string, d: Draws)
    requires g.ValidDraws(d)
    ensures g.GenerateAnswer(q, d).answer == AnswerTable[d.answerIndex] + NoteOf(d) + CodeOf(d)
  {
    var base := AnswerTable[d.answerIndex];
    assert base + NoteOf(d) == if d.addNote then base + VersionNote(d.major, d.minor) else base;
    assert base + NoteOf(d) + CodeOf(d) == if d.addCode then base + NoteOf(d) + CodeBlock else base + NoteOf(d);
  }

  // ---------------------------------------------------------------------
  // The answer table
  // ---------------------------------------------------------------------

  /** Two prefixes of one sequence: the shorter is a prefix of the longer. */
  lemma PrefixesNest(a: string, b: string, t: string)
    requires a <= t && b <= t
    ensures a <= b || b <= a
  {
    if |a| <= |b| {
      assert a == t[..|a|] == b[..|a|];
    } else {
      assert b == t[..|b|] == a[..|b|];
    }
  }

  /** The text starts with exactly one entry of the answer table: the one drawn. */
  lemma StartsWithExactlyOneEntry(g: StackOverflowAnswerGenerator, q: string, d: Draws)
    requires g.ValidDraws(d)
    ensures forall j :: 0 <= j < |AnswerTable| ==> (AnswerTable[j] <= g.GenerateAnswer(q, d).answer <==> j == d.answerIndex)
  {
    var text := g.GenerateAnswer(q, d).answer;
    AnswerTablePrefixFree();
    forall j | 0 <= j < |AnswerTable| && AnswerTable[j] <= text ensures j == d.answerIndex {
      PrefixesNest(AnswerTable[j], AnswerTable[d.answerIndex], text);
    }
  }

  // ---------------------------------------------------------------------
  // The upvote bias
  // ---------------------------------------------------------------------

  /**
    A text that lacks the letter `c` of "wrong" in both cases, and lacks 'Q',
    does not make the bias fire.
   */
  lemma NotFiringWithout(s: string, c: char)
    requires c in "wrong" && c !in s && (c as int - 32) as char !in s
    requires 'Q' !in s
    ensures !BiasFires(s)
  {
    LowerOmits(s, c);
    NotInWithoutChar("wrong", Lower(s), c);
    NotInWithoutChar("jQuery", s, 'Q');
  }

  /** No version note makes the bias fire. */
  lemma VersionNoteInert(major: int, minor: int)
    requires 1 <= major <= 2 && 0 <= minor <= 7
    ensures !BiasFires(VersionNote(major, minor))
  {
    NoteHeadLacksLowerG();
    NoteHeadLacksUpperG();
    NoteHeadLacksQ();
    NotFiringWithout(VersionNote(major, minor), 'g');
  }

  /**
    The code block does not make the bias fire, although its lower-cased
    form holds every letter of "wrong": no 'w' comes before "answer", and
    no 'g' comes after it.
   */
  lemma CodeBlockInert()
    ensures !BiasFires(CodeBlock)
  {
    CodeBlockSplit();
    LowerConcat(CodeHead, CodeTail);
    InConcat("wrong", Lower(CodeHead), Lower(CodeTail));
    CodeHeadLacksLowerW();
    CodeHeadLacksUpperW();
    LowerOmits(CodeHead, 'w');
    NotInWithoutChar("wrong", Lower(CodeHead), 'w');
    CodeTailLacksLowerG();
    CodeTailLacksUpperG();
    LowerOmits(CodeTail, 'g');
    NotInWithoutChar("wrong", Lower(CodeTail), 'g');
    CodeBlockLacksQ();
    NotInWithoutChar("jQuery", CodeBlock, 'Q');
  }

  /**
    Appending a suffix that starts a new line and does not fire on its own
    leaves the bias decision unchanged.
   */
  lemma AppendInertSuffix(s: string, suffix: string)
    requires |suffix| > 0 && suffix[0] == '\n' && !BiasFires(suffix)
    ensures BiasFires(s + suffix) <==> BiasFires(s)
  {
    LowerConcat(s, suffix);
    assert Lower(suffix)[0] == '\n';
    InConcat("wrong", Lower(s), Lower(suffix));
    InConcat("jQuery", s, suffix);
  }

  // Per entry: a letter of "wrong" the entry lacks in both cases, and the absence of 'Q'.

  lemma DuplicateInert()
    ensures !BiasFires(Duplicate)
  {
    DuplicateLacksLowerW();
    DuplicateLacksUpperW();
    DuplicateLacksQ();
    NotFiringWithout(Duplicate, 'w');
  }

  lemma TurnItOffInert()
    ensures !BiasFires(TurnItOff)
  {
    TurnItOffLacksLowerW();
    TurnItOffLacksUpperW();
    TurnItOffLacksQ();
    NotFiringWithout(TurnItOff, 'w');
  }

  lemma WorksForMeInert()
    ensures !BiasFires(WorksForMe)
  {
    WorksForMeLacksLowerG();
    WorksForMeLacksUpperG();
    WorksForMeLacksQ();
    NotFiringWithout(WorksForMe, 'g');
  }

  lemma BlamePythonInert()
    ensures !BiasFires(BlamePython)
  {
    BlamePythonLacksLowerW();
    BlamePythonLacksUpperW();
    BlamePythonLacksQ();
    NotFiringWithout(BlamePython, 'w');
  }

  lemma HaskellInert()
    ensures !BiasFires(Haskell)
  {
    HaskellLacksLowerW();
    HaskellLacksUpperW();
    HaskellLacksQ();
    NotFiringWithout(Haskell, 'w');
  }

  lemma ItDependsInert()
    ensures !BiasFires(ItDepends)
  {
    ItDependsLacksLowerG();
    ItDependsLacksUpperG();
    ItDependsLacksQ();
    NotFiringWithout(ItDepends, 'g');
  }

  lemma RtfmInert()
    ensures !BiasFires(Rtfm)
  {
    RtfmLacksLowerW();
    RtfmLacksUpperW();
    RtfmLacksQ();
    NotFiringWithout(Rtfm, 'w');
  }

  lemma AsyncAwaitInert()
    ensures !BiasFires(AsyncAwait)
  {
    AsyncAwaitLacksLowerG();
    AsyncAwaitLacksUpperG();
    AsyncAwaitLacksQ();
    NotFiringWithout(AsyncAwait, 'g');
  }

  /** "Just use jQuery." contains "jQuery". */
  lemma UseJQueryFires()
    ensures BiasFires(UseJQuery)
  {
    assert UseJQuery[9] == 'j' && UseJQuery[10] == 'Q' && UseJQuery[11] == 'u';
    assert UseJQuery[12] == 'e' && UseJQuery[13] == 'r' && UseJQuery[14] == 'y';
    assert UseJQuery[9..15] == "jQuery";
    assert OccursAt("jQuery", UseJQuery, 9);
  }

  /** "You're doing it wrong. ..." contains "wrong". */
  lemma DoingItWrongFires()
    ensures BiasFires(DoingItWrong)
  {
    var s := Lower(DoingItWrong);
    assert s[16] == 'w' && s[17] == 'r' && s[18] == 'o' && s[19] == 'n' && s[20] == 'g';
    assert s[16..21] == "wrong";
    assert OccursAt("wrong", s, 16);
  }

  /** Among the table entries, the bias fires for "Just use jQuery." and for the "doing it wrong" answer only. */
  lemma EntryFires(i: int)
    requires 0 <= i < |AnswerTable|
    ensures BiasFires(AnswerTable[i]) <==> i == 1 || i == 4
  {
    match i
    case 0 => DuplicateInert();
    case 1 => UseJQueryFires();
    case 2 => TurnItOffInert();
    case 3 => WorksForMeInert();
    case 4 => DoingItWrongFires();
    case 5 => BlamePythonInert();
    case 6 => HaskellInert();
    case 7 => ItDependsInert();
    case 8 => RtfmInert();
    case 9 => AsyncAwaitInert();
  }

  /**
    The bias fires exactly when the drawn entry is "Just use jQuery." or
    "You're doing it wrong. ...", whatever suffixes are appended.
   */
  lemma BiasFiresExactlyForTwoEntries(g: StackOverflowAnswerGenerator, q: string, d: Draws)
    requires g.ValidDraws(d)
    ensures BiasFires(g.GenerateAnswer(q, d).answer) <==> d.answerIndex == 1 || d.answerIndex == 4
  {
    var base := AnswerTable[d.answerIndex];
    var withNote := base + NoteOf(d);
    EntryFires(d.answerIndex);
    if d.addNote {
      VersionNoteInert(d.major, d.minor);
      AppendInertSuffix(base, NoteOf(d));
    } else {
      assert withNote == base;
    }
    if d.addCode {
      CodeBlockInert();
      AppendInertSuffix(withNote, CodeBlock);
    } else {
      assert withNote + CodeOf(d) == withNote;
    }
  }

  /** Which upvote draw the record carries, decided by the drawn entry alone. */
  lemma UpvotesByEntry(g: StackOverflowAnswerGenerator, q: string, d: Draws)
    requires g.ValidDraws(d)
    ensures d.answerIndex == 1 || d.answerIndex == 4 ==>
      g.GenerateAnswer(q, d).upvotes == d.biasedVotes && 500 <= g.GenerateAnswer(q, d).upvotes
    ensures !(d.answerIndex == 1 || d.answerIndex == 4) ==>
      g.GenerateAnswer(q, d).upvotes == d.baseVotes && g.GenerateAnswer(q, d).upvotes <= 1000
  {
    BiasFiresExactlyForTwoEntries(g, q, d);
  }

  /** Both ends of the upvote range, -5 and 5000, are produced by some draws. */
  lemma UpvoteBoundsReachable(g: StackOverflowAnswerGenerator, q: string)
    ensures exists d :: g.ValidDraws(d) && g.GenerateAnswer(q, d).upvotes == -5
    ensures exists d :: g.ValidDraws(d) && g.GenerateAnswer(q, d).upvotes == 5000
  {
    var low := Draws(0, false, 1, 0, false, -5, 5000, 1, 0, 0, []);
    var high := Draws(1, false, 1, 0, false, -5, 5000, 1, 0, 0, []);
    assert g.ValidDraws(low) && g.ValidDraws(high);
    UpvotesByEntry(g, q, low);
    UpvotesByEntry(g, q, high);
  }

  // ---------------------------------------------------------------------
  // The suffixes and what the text reveals
  // ---------------------------------------------------------------------

  /**
    With both suffixes drawn, the version note sits right after the entry and
    the code block closes the text.
   */
  lemma NoteBeforeCode(g: StackOverflowAnswerGenerator, q: string, d: Draws)
    requires g.ValidDraws(d) && d.addNote && d.addCode
    ensures var text := g.GenerateAnswer(q, d).answer;
      var n := |AnswerTable[d.answerIndex]|;
      && OccursAt(VersionNote(d.major, d.minor), text, n)
      && OccursAt(CodeBlock, text, n + |VersionNote(d.major, d.minor)|)
      && |text| == n + |VersionNote(d.major, d.minor)| + |CodeBlock|
  {
    var base, note := AnswerTable[d.answerIndex], VersionNote(d.major, d.minor);
    var text := g.GenerateAnswer(q, d).answer;
    assert text == base + note + CodeBlock;
    assert text[|base|..|base| + |note|] == note;
    assert text[|base| + |note|..] == CodeBlock;
  }

  /** The text ends with a backquote exactly when the code block was appended. */
  lemma EndsWithCodeExactlyWhenAdded(g: StackOverflowAnswerGenerator, q: string, d: Draws)
    requires g.ValidDraws(d)
    ensures var text := g.GenerateAnswer(q, d).answer;
      text[|text| - 1] == '`' <==> d.addCode
  {
    var base := AnswerTable[d.answerIndex];
    var text := g.GenerateAnswer(q, d).answer;
    EntryLastChar(d.answerIndex);
    Layout(g, q, d);
    if d.addCode {
      assert text[|text| - 1] == CodeBlock[|CodeBlock| - 1];
    } else if d.addNote {
      assert text[|text| - 1] == VersionNote(d.major, d.minor)[|NoteHead| + 2];
    } else {
      assert text == base;
    }
  }

  /**
    The text records the draws that shaped it: two draws that give the same
    text chose the same entry, the same suffixes and, when the note was
    appended, the same version.
   */
  lemma TextDeterminesDraws(g: StackOverflowAnswerGenerator, q1: string, q2: string, d1: Draws, d2: Draws)
    requires g.ValidDraws(d1) && g.ValidDraws(d2)
    requires g.GenerateAnswer(q1, d1).answer == g.GenerateAnswer(q2, d2).answer
    ensures d1.answerIndex == d2.answerIndex
    ensures d1.addCode == d2.addCode
    ensures d1.addNote == d2.addNote
    ensures d1.addNote ==> d1.major == d2.major && d1.minor == d2.minor
  {
    var t := g.GenerateAnswer(q1, d1).answer;
    EndsWithCodeExactlyWhenAdded(g, q1, d1);
    EndsWithCodeExactlyWhenAdded(g, q2, d2);
    assert d1.addCode == d2.addCode;
    StartsWithExactlyOneEntry(g, q1, d1);
    StartsWithExactlyOneEntry(g, q2, d2);
    assert AnswerTable[d2.answerIndex] <= t;
    var base := AnswerTable[d1.answerIndex];
    Layout(g, q1, d1);
    Layout(g, q2, d2);
    MiddleCancels(base, NoteOf(d1), NoteOf(d2), CodeOf(d1));
    if d1.addNote {
      var v1, v2 := VersionNote(d1.major, d1.minor), VersionNote(d2.major, d2.minor);
      assert v1 == v2;
      assert v1[|v1| - 3] == v2[|v2| - 3] && v1[|v1| - 1] == v2[|v2| - 1];
    }
  }

  /** Equal texts with the same first and last parts have the same middle part. */
  lemma MiddleCancels(a: string, m1: string, m2: string, c: string)
    requires a + m1 + c == a + m2 + c
    ensures m1 == m2
  {
    var t := a + m1 + c;
    assert |m1| == |m2|;
    assert m1 == t[|a|..|a| + |m1|];
    assert m2 == (a + m2 + c)[|a|..|a| + |m2|];
  }

  // ---------------------------------------------------------------------
  // The remaining fields
  // ---------------------------------------------------------------------

  /** The question has no effect on the record. */
  lemma QuestionIgnored(g: StackOverflowAnswerGenerator, q1: string, q2: string, d: Draws)
    requires g.ValidDraws(d)
    ensures g.GenerateAnswer(q1, d) == g.GenerateAnswer(q2, d)
  {
  }

  /** One of the three acceptance choices is true and two are false. */
  lemma AcceptedOneChoiceInThree()
    ensures multiset(AcceptChoices)[true] == 1 && multiset(AcceptChoices)[false] == 2
  {
  }
}
