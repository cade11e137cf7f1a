/**
 * The two text tables behind the fine-grained labels, as the source's
 * ReadCodesFile and FillCodesWithValues build them (in ClassesParser and,
 * with a whitelist, in DogBreedClassifier): an ordinal-to-code table keyed
 * from 1 by line number, and a tab-separated code-to-name table in which a
 * later line for a code overwrites an earlier one.
 */
module LabelTables {
  import opened Wrappers
  import opened JavaStrings

  /** codes.txt: line N (counting from 1) becomes the code of index N, untrimmed. */
  function CodesTable(lines: seq<string>): (t: map<int, string>)
    ensures forall n :: n in t <==> 1 <= n <= |lines|
    ensures forall n | n in t :: t[n] == lines[n - 1]
  {
    if lines == [] then map[]
    else CodesTable(lines[..|lines| - 1])[|lines| := lines[|lines| - 1]]
  }

  /** The fields of one name-table line: split("\t") of the trimmed line. */
  function TabFields(line: string): seq<string>
  {
    JavaSplit(Trim(line), '\t')
  }

  /**
   * A name-table line is used when it has at least two fields and, if a
   * whitelist is given, its code is on it.
   */
  predicate Qualifies(line: string, whitelist: Option<seq<string>>)
  {
    var f := TabFields(line);
    |f| >= 2 && (whitelist.None? || f[0] in whitelist.value)
  }

  function CodeOf(line: string): string
    requires |TabFields(line)| >= 2
  {
    TabFields(line)[0]
  }

  function NameOf(line: string): string
    requires |TabFields(line)| >= 2
  {
    TabFields(line)[1]
  }

  /** What one name-table line contributes: its (code, name) pair, or nothing. */
  function Entry(line: string, whitelist: Option<seq<string>>): (e: Option<(string, string)>)
    ensures e.Some? <==> Qualifies(line, whitelist)
    ensures e.Some? ==> e.value == (CodeOf(line), NameOf(line))
  {
    if Qualifies(line, whitelist) then Some((CodeOf(line), NameOf(line))) else None
  }

  /** The entries of a whole file, line by line. */
  function Entries(lines: seq<string>, whitelist: Option<seq<string>>): (es: seq<Option<(string, string)>>)
    ensures |es| == |lines|
    ensures forall i | 0 <= i < |lines| :: es[i] == Entry(lines[i], whitelist)
  {
    seq(|lines|, i requires 0 <= i < |lines| => Entry(lines[i], whitelist))
  }

  /** The map that results from putting the pairs in order, the later pair for a key winning. */
  function PutAll(entries: seq<Option<(string, string)>>): map<string, string>
  {
    if entries == [] then map[]
    else
      var t := PutAll(entries[..|entries| - 1]);
      match entries[|entries| - 1]
      case None => t
      case Some(e) => t[e.0 := e.1]
  }

  /** The code-to-name table that results from putting every qualifying line, in file order. */
  function NamesTable(lines: seq<string>, whitelist: Option<seq<string>>): map<string, string>
  {
    PutAll(Entries(lines, whitelist))
  }

  /** Reading one more line puts that line's entry, if any. */
  lemma NamesTableStep(lines: seq<string>, whitelist: Option<seq<string>>, i: nat)
    requires i < |lines|
    ensures NamesTable(lines[..i + 1], whitelist) ==
              match Entry(lines[i], whitelist)
              case None => NamesTable(lines[..i], whitelist)
              case Some(e) => NamesTable(lines[..i], whitelist)[e.0 := e.1]
  {
    var es := Entries(lines[..i + 1], whitelist);
    assert es[..|es| - 1] == Entries(lines[..i], whitelist);
    assert es[|es| - 1] == Entry(lines[i], whitelist);
    assert NamesTable(lines[..i + 1], whitelist) == PutAll(es);
  }

  lemma {:induction false} PutAllDomain(entries: seq<Option<(string, string)>>, key: string)
    ensures key in PutAll(entries) <==>
              exists i | 0 <= i < |entries| :: entries[i].Some? && entries[i].value.0 == key
  {
    if entries != [] {
      var init := entries[..|entries| - 1];
      PutAllDomain(init, key);
      if key in PutAll(init) {
        var i :| 0 <= i < |init| && init[i].Some? && init[i].value.0 == key;
        assert entries[i] == init[i];
      }
      if exists i | 0 <= i < |entries| :: entries[i].Some? && entries[i].value.0 == key {
        var i :| 0 <= i < |entries| && entries[i].Some? && entries[i].value.0 == key;
        if i < |init| {
          assert init[i] == entries[i];
        }
      }
    }
  }

  lemma {:induction false} PutAllLastWins(entries: seq<Option<(string, string)>>, i: nat)
    requires i < |entries| && entries[i].Some?
    requires forall j | i < j < |entries| :: !(entries[j].Some? && entries[j].value.0 == entries[i].value.0)
    ensures entries[i].value.0 in PutAll(entries)
    ensures PutAll(entries)[entries[i].value.0] == entries[i].value.1
  {
    var init := entries[..|entries| - 1];
    if i < |entries| - 1 {
      assert init[i] == entries[i];
      forall j | i < j < |init|
        ensures !(init[j].Some? && init[j].value.0 == init[i].value.0)
      {
        assert init[j] == entries[j];
      }
      PutAllLastWins(init, i);
    }
  }

  /** GetValueByIndex: codesToHuman.get(indexToCode.get(index)), where a missing key gives null. */
  function LookupName(indexToCode: map<int, string>, codesToHuman: map<string, string>, index: int): Option<string>
  {
    if index in indexToCode && indexToCode[index] in codesToHuman
    then Some(codesToHuman[indexToCode[index]])
    else None
  }

  /** A name-table line counts exactly when its trimmed text holds a tab (and its code is whitelisted). */
  lemma QualifiesIffTab(line: string, whitelist: Option<seq<string>>)
    ensures Qualifies(line, whitelist) <==>
              '\t' in Trim(line) && (whitelist.None? || SplitAll(Trim(line), '\t')[0] in whitelist.value)
  {
    TrimmedTabSplit(line);
  }

  /** A code has a name exactly when some qualifying line carries it. */
  lemma NamesTableDomain(lines: seq<string>, whitelist: Option<seq<string>>, code: string)
    ensures code in NamesTable(lines, whitelist) <==>
              exists i | 0 <= i < |lines| :: Qualifies(lines[i], whitelist) && CodeOf(lines[i]) == code
  {
    var es := Entries(lines, whitelist);
    PutAllDomain(es, code);
    if exists i | 0 <= i < |es| :: es[i].Some? && es[i].value.0 == code {
      var i :| 0 <= i < |es| && es[i].Some? && es[i].value.0 == code;
      assert Qualifies(lines[i], whitelist) && CodeOf(lines[i]) == code;
    }
    if exists i | 0 <= i < |lines| :: Qualifies(lines[i], whitelist) && CodeOf(lines[i]) == code {
      var i :| 0 <= i < |lines| && Qualifies(lines[i], whitelist) && CodeOf(lines[i]) == code;
      assert es[i].Some? && es[i].value.0 == code;
    }
  }

  /** The name of a code comes from the last qualifying line that carries it. */
  lemma NamesTableLastWins(lines: seq<string>, whitelist: Option<seq<string>>, i: nat)
    requires i < |lines| && Qualifies(lines[i], whitelist)
    requires forall j | i < j < |lines| :: !(Qualifies(lines[j], whitelist) && CodeOf(lines[j]) == CodeOf(lines[i]))
    ensures CodeOf(lines[i]) in NamesTable(lines, whitelist)
    ensures NamesTable(lines, whitelist)[CodeOf(lines[i])] == NameOf(lines[i])
  {
    var es := Entries(lines, whitelist);
    forall j | i < j < |es|
      ensures !(es[j].Some? && es[j].value.0 == es[i].value.0)
    {
      assert es[j] == Entry(lines[j], whitelist);
    }
    PutAllLastWins(es, i);
  }

  /**
   * The whitelisted table is the unrestricted one cut down to the whitelist:
   * dropping a line never lets an earlier name of another listed code win.
   */
  lemma {:induction false} WhitelistRestricts(lines: seq<string>, codes: seq<string>)
    ensures NamesTable(lines, Some(codes)) ==
              map c | c in NamesTable(lines, None) && c in codes :: NamesTable(lines, None)[c]
  {
    if lines != [] {
      var i := |lines| - 1;
      assert lines[..i + 1] == lines;
      WhitelistRestricts(lines[..i], codes);
      NamesTableStep(lines, Some(codes), i);
      NamesTableStep(lines, None, i);
    }
  }

  /** Resolving an index goes through line index of the code table; 0 and indices past the end never resolve. */
  lemma LookupFromTables(codeLines: seq<string>, names: map<string, string>, index: int)
    ensures LookupName(CodesTable(codeLines), names, index).Some? <==>
              1 <= index <= |codeLines| && codeLines[index - 1] in names
    ensures LookupName(CodesTable(codeLines), names, index).Some? ==>
              LookupName(CodesTable(codeLines), names, index).value == names[codeLines[index - 1]]
    ensures LookupName(CodesTable(codeLines), names, 0) == None
  {
    var t := CodesTable(codeLines);
    assert 0 !in t;
    if index in t {
      assert t[index] == codeLines[index - 1];
    }
  }

  /** The table loops add one key at a time to a map that may already hold entries. */
  lemma UnionUpdate<K, V>(a: map<K, V>, b: map<K, V>, k: K, v: V)
    ensures a + b[k := v] == (a + b)[k := v]
  {
  }

  lemma EmptyUnion<K, V>(m: map<K, V>)
    ensures map[] + m == m
  {
  }
}
