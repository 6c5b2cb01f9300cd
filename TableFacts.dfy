/**
  Facts about the generator's fixed texts, read off character by character:
  which letters each text lacks, how the answer entries begin and end.
  Each fact is a lemma of its own, since inspecting a text is costly for
  the verifier.
 */
module TableFacts {
  import opened AnswerGenerator

  /** No entry of the answer table ends with a backquote. */
  lemma EntryLastChar(i: int)
    requires 0 <= i < |AnswerTable|
    ensures |AnswerTable[i]| > 0 && AnswerTable[i][|AnswerTable[i]| - 1] != '`'
  {
    match i
    case 0 => case 1 => case 2 => case 3 => case 4 =>
    case 5 => case 6 => case 7 => case 8 => case 9 =>
  }

  /** No entry of the answer table is a prefix of another one. */
  lemma AnswerTablePrefixFree()
    ensures forall i, j :: 0 <= i < |AnswerTable| && 0 <= j < |AnswerTable| && i != j ==> !(AnswerTable[i] <= AnswerTable[j])
    ensures Distinct(AnswerTable)
  {
    var a := AnswerTable;
    assert a[0][0] == 'T' && a[1][0] == 'J' && a[2][0] == 'H' && a[3][0] == 'W' && a[4][0] == 'Y';
    assert a[5][0] == 'T' && a[6][0] == 'T' && a[7][0] == '"' && a[8][0] == 'R' && a[9][0] == 'J';
    assert a[0][2] == 'i' && a[5][2] == 'e' && a[6][2] == 'i';
    assert a[0][5] == 'q' && a[6][5] == 'i';
    assert a[1][9] == 'j' && a[9][9] == 'a';
  }

  // Per answer entry that does not fire: a letter of "wrong" it lacks in both
  // cases, and the absence of 'Q' (so of "jQuery").

  lemma DuplicateLacksLowerW()
    ensures 'w' !in Duplicate
  {
  }

  lemma DuplicateLacksUpperW()
    ensures 'W' !in Duplicate
  {
  }

  lemma DuplicateLacksQ()
    ensures 'Q' !in Duplicate
  {
  }

  lemma TurnItOffLacksLowerW()
    ensures 'w' !in TurnItOff
  {
  }

  lemma TurnItOffLacksUpperW()
    ensures 'W' !in TurnItOff
  {
  }

  lemma TurnItOffLacksQ()
    ensures 'Q' !in TurnItOff
  {
  }

  lemma WorksForMeLacksLowerG()
    ensures 'g' !in WorksForMe
  {
  }

  lemma WorksForMeLacksUpperG()
    ensures 'G' !in WorksForMe
  {
  }

  lemma WorksForMeLacksQ()
    ensures 'Q' !in WorksForMe
  {
  }

  lemma BlamePythonLacksLowerW()
    ensures 'w' !in BlamePython
  {
  }

  lemma BlamePythonLacksUpperW()
    ensures 'W' !in BlamePython
  {
  }

  lemma BlamePythonLacksQ()
    ensures 'Q' !in BlamePython
  {
  }

  lemma HaskellLacksLowerW()
    ensures 'w' !in Haskell
  {
  }

  lemma HaskellLacksUpperW()
    ensures 'W' !in Haskell
  {
  }

  lemma HaskellLacksQ()
    ensures 'Q' !in Haskell
  {
  }

  lemma ItDependsLacksLowerG()
    ensures 'g' !in ItDepends
  {
  }

  lemma ItDependsLacksUpperG()
    ensures 'G' !in ItDepends
  {
  }

  lemma ItDependsLacksQ()
    ensures 'Q' !in ItDepends
  {
  }

  lemma RtfmLacksLowerW()
    ensures 'w' !in Rtfm
  {
  }

  lemma RtfmLacksUpperW()
    ensures 'W' !in Rtfm
  {
  }

  lemma RtfmLacksQ()
    ensures 'Q' !in Rtfm
  {
  }

  lemma AsyncAwaitLacksLowerG()
    ensures 'g' !in AsyncAwait
  {
  }

  lemma AsyncAwaitLacksUpperG()
    ensures 'G' !in AsyncAwait
  {
  }

  lemma AsyncAwaitLacksQ()
    ensures 'Q' !in AsyncAwait
  {
  }

  lemma NoteHeadLacksLowerG()
    ensures 'g' !in NoteHead
  {
  }

  lemma NoteHeadLacksUpperG()
    ensures 'G' !in NoteHead
  {
  }

  lemma NoteHeadLacksQ()
    ensures 'Q' !in NoteHead
  {
  }

  /** The code block up to the word "answer", and the rest. */
  const CodeHead: string := "\n\n```python\n" + "# Here's some " + "unrelated code\n" + "def solve_nothing():\n" + "    return 'not your "
  const CodeTail: string := "answer'\n```"

  lemma CodeBlockSplit()
    ensures CodeBlock == CodeHead + CodeTail && CodeTail[0] == 'a'
  {
  }

  /** Before "answer", the code block has no 'w' in either case. */
  lemma CodeHeadLacksLowerW()
    ensures 'w' !in CodeHead
  {
  }

  lemma CodeHeadLacksUpperW()
    ensures 'W' !in CodeHead
  {
  }

  /** From "answer" on, the code block has no 'g' in either case. */
  lemma CodeTailLacksLowerG()
    ensures 'g' !in CodeTail
  {
  }

  lemma CodeTailLacksUpperG()
    ensures 'G' !in CodeTail
  {
  }

  lemma CodeBlockLacksQ()
    ensures 'Q' !in CodeBlock
  {
    CodeBlockSplit();
  }
}
