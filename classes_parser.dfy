/**
 * CameraTest's ClassesParser: the two label tables the camera app reads
 * from its assets, codes.txt (one code per line) and code_human.txt
 * (tab-separated code and name). Unlike the breed classifier's copy, the
 * name table takes every line with two tab fields; there is no whitelist.
 *
 * The asset reader is replaced by the files' lines; an IOException, which
 * the source swallows, is not modelled (the loop then just stops early,
 * which is the same as a shorter file).
 */
module ClassesParsing {
  import opened Wrappers
  import opened JavaStrings
  import opened LabelTables

  class ClassesParser {
    /** Line number (from 1) to code, from codes.txt. */
    var indexToCode: map<int, string>
    /** Code to human-readable name, from code_human.txt. */
    var codesToHuman: map<string, string>

    /** The constructor: start from empty tables and fill them from the two files. */
    constructor (codeLines: seq<string>, nameLines: seq<string>)
      ensures indexToCode == CodesTable(codeLines)
      ensures codesToHuman == NamesTable(nameLines, None)
    {
      indexToCode := map[];
      codesToHuman := map[];
      new;
      InitializeMap(codeLines, nameLines);
      EmptyUnion(CodesTable(codeLines));
      EmptyUnion(NamesTable(nameLines, None));
    }

    /** The code, then its name; a missing key on either step gives null (None). */
    function GetValueByIndex(index: int): (name: Option<string>)
      reads this
      ensures name.Some? <==> index in indexToCode && indexToCode[index] in codesToHuman
      ensures name.Some? ==> name.value == codesToHuman[indexToCode[index]]
    {
      LookupName(indexToCode, codesToHuman, index)
    }

    method InitializeMap(codeLines: seq<string>, nameLines: seq<string>)
      modifies this
      ensures indexToCode == old(indexToCode) + CodesTable(codeLines)
      ensures codesToHuman == old(codesToHuman) + NamesTable(nameLines, None)
    {
      ReadCodesFile(codeLines);
      FillCodesWithValues(nameLines);
    }

    /** Line N (from 1) of codes.txt under key N, untrimmed: the trim() result is dropped. */
    method ReadCodesFile(lines: seq<string>)
      modifies this
      ensures codesToHuman == old(codesToHuman)
      ensures indexToCode == old(indexToCode) + CodesTable(lines)
    {
      var index := 1;
      for i := 0 to |lines|
        invariant index == i + 1
        invariant codesToHuman == old(codesToHuman)
        invariant indexToCode == old(indexToCode) + CodesTable(lines[..i])
      {
        var mLine := lines[i];
        assert lines[..i + 1][..i] == lines[..i];
        UnionUpdate(old(indexToCode), CodesTable(lines[..i]), index, mLine);
        indexToCode := indexToCode[index := mLine];
        index := index + 1;
      }
      assert lines[..|lines|] == lines;
    }

    /** Every trimmed line that splits on tabs into two or more fields puts field 0 to field 1. */
    method FillCodesWithValues(lines: seq<string>)
      modifies this
      ensures indexToCode == old(indexToCode)
      ensures codesToHuman == old(codesToHuman) + NamesTable(lines, None)
    {
      for i := 0 to |lines|
        invariant indexToCode == old(indexToCode)
        invariant codesToHuman == old(codesToHuman) + NamesTable(lines[..i], None)
      {
        var codeAndName := JavaSplit(Trim(lines[i]), '\t');
        NamesTableStep(lines, None, i);
        if |codeAndName| >= 2 {
          UnionUpdate(old(codesToHuman), NamesTable(lines[..i], None), codeAndName[0], codeAndName[1]);
          codesToHuman := codesToHuman[codeAndName[0] := codeAndName[1]];
        }
      }
      assert lines[..|lines|] == lines;
    }
  }

  /**
   * A parser built from the two files names index N exactly when line N of
   * codes.txt is the code of some qualifying line of code_human.txt (one
   * whose trimmed text holds a tab, by QualifiesIffTab); index 0 never has a
   * name.
   */
  lemma ParserLookup(p: ClassesParser, codeLines: seq<string>, nameLines: seq<string>, index: int)
    requires p.indexToCode == CodesTable(codeLines) && p.codesToHuman == NamesTable(nameLines, None)
    ensures p.GetValueByIndex(index).Some? <==>
              1 <= index <= |codeLines| &&
              exists j | 0 <= j < |nameLines| :: Qualifies(nameLines[j], None) && CodeOf(nameLines[j]) == codeLines[index - 1]
    ensures p.GetValueByIndex(0) == None
  {
    LookupFromTables(codeLines, p.codesToHuman, index);
    LookupFromTables(codeLines, p.codesToHuman, 0);
    if 1 <= index <= |codeLines| {
      NamesTableDomain(nameLines, None, codeLines[index - 1]);
    }
  }

  /**
   * The name found for index N is the name on the last line of
   * code_human.txt that carries line N's code.
   */
  lemma ParserLookupLastWins(p: ClassesParser, codeLines: seq<string>, nameLines: seq<string>, index: int, j: nat)
    requires p.indexToCode == CodesTable(codeLines) && p.codesToHuman == NamesTable(nameLines, None)
    requires 1 <= index <= |codeLines|
    requires j < |nameLines| && Qualifies(nameLines[j], None) && CodeOf(nameLines[j]) == codeLines[index - 1]
    requires forall k | j < k < |nameLines| :: !(Qualifies(nameLines[k], None) && CodeOf(nameLines[k]) == codeLines[index - 1])
    ensures p.GetValueByIndex(index) == Some(NameOf(nameLines[j]))
  {
    NamesTableLastWins(nameLines, None, j);
    LookupFromTables(codeLines, p.codesToHuman, index);
  }
}
