/** detectDebianDistro: the scan of /etc/os-release behind system.update. */
module OsRelease {
  import opened Basics
  import opened Text

  const ID: string := "ID="
  const ID_LIKE: string := "ID_LIKE="

  predicate IsQuote(c: char) {
    c == '"'
  }

  /** strings.ToLower on characters: the ASCII letters are fixed, the mapping of all
      others is a parameter. */
  function Lower(fold: char -> char, s: string): string {
    seq(|s|, i requires 0 <= i < |s| =>
      if 'A' <= s[i] <= 'Z' then s[i] - 'A' + 'a'
      else if s[i] < '\U{80}' then s[i] else fold(s[i]))
  }

  /** The value of an assignment line, unquoted and lower-cased. */
  function Value(fold: char -> char, line: string, key: string): string {
    Lower(fold, TrimRight(TrimLeft(TrimPrefix(line, key), IsQuote), IsQuote))
  }

  /** strings.Split(data, "\n") */
  function SplitLines(data: string): (lines: seq<string>)
    ensures lines != []
  {
    if data == "" then [""]
    else
      var rest := SplitLines(data[1..]);
      if data[0] == '\n' then [""] + rest else [[data[0]] + rest[0]] + rest[1..]
  }

  /** The decision taken once the two fields are known. */
  function Decide(id: string, idLike: string): string {
    if IsDebianFamily(id, idLike) then if id != "" then id else idLike else ""
  }

  predicate IsDebianFamily(id: string, idLike: string) {
    id == "ubuntu" || id == "debian" || Contains(idLike, "ubuntu") || Contains(idLike, "debian")
  }

  /** The last line whose trimmed form assigns key, trimmed. */
  function LastAssignment(lines: seq<string>, key: string): Option<string> {
    if lines == [] then None
    else
      var line := TrimSpace(lines[|lines| - 1]);
      if HasPrefix(line, key) then Some(line) else LastAssignment(lines[..|lines| - 1], key)
  }

  /** The field named key: the value of its last assignment, empty without one. */
  function Field(fold: char -> char, lines: seq<string>, key: string): string {
    match LastAssignment(lines, key)
    case None => ""
    case Some(line) => Value(fold, line, key)
  }

  /** The declarative meaning of the scan. */
  function Distro(fold: char -> char, data: string): string {
    Decide(Field(fold, SplitLines(data), ID), Field(fold, SplitLines(data), ID_LIKE))
  }

  /** The scan itself; an unreadable file (None) is an error. */
  method DetectDebianDistro(fold: char -> char, file: Option<string>) returns (r: Result<string, ()>)
    ensures r == if file.None? then Err(()) else Ok(Distro(fold, file.value))
  {
    if file.None? {
      return Err(());
    }
    var lines := SplitLines(file.value);
    var id, idLike := "", "";
    for i := 0 to |lines|
      invariant id == Field(fold, lines[..i], ID)
      invariant idLike == Field(fold, lines[..i], ID_LIKE)
    {
      assert lines[..i + 1][..i] == lines[..i];
      var line := TrimSpace(lines[i]);
      if HasPrefix(line, ID) {
        id := Value(fold, line, ID);
      }
      if HasPrefix(line, ID_LIKE) {
        idLike := Value(fold, line, ID_LIKE);
      }
    }
    assert lines[..|lines|] == lines;
    if id == "ubuntu" || id == "debian" || Contains(idLike, "ubuntu") || Contains(idLike, "debian") {
      return Ok(if id != "" then id else idLike);
    }
    return Ok("");
  }

  /** No line assigns both fields. */
  lemma KeysExclusive(line: string)
    ensures HasPrefix(line, ID) ==> !HasPrefix(line, ID_LIKE)
  {
    if HasPrefix(line, ID) {
      assert line[2] == '=' && ID_LIKE[2] == '_';
    }
  }

  /** A line that assigns neither field. */
  predicate Irrelevant(line: string) {
    !HasPrefix(TrimSpace(line), ID) && !HasPrefix(TrimSpace(line), ID_LIKE)
  }

  lemma {:induction false} LastAssignmentAppend(a: seq<string>, b: seq<string>, key: string)
    ensures LastAssignment(a + b, key)
         == if LastAssignment(b, key).Some? then LastAssignment(b, key) else LastAssignment(a, key)
  {
    if b == [] {
      assert a + b == a;
    } else {
      assert (a + b)[..|a + b| - 1] == a + b[..|b| - 1];
      LastAssignmentAppend(a, b[..|b| - 1], key);
    }
  }

  lemma {:induction false} SplitLinesAppend(a: string, b: string)
    ensures SplitLines(a + "\n" + b) == SplitLines(a) + SplitLines(b)
  {
    if a == "" {
      assert a + "\n" + b == "\n" + b;
      assert ("\n" + b)[1..] == b;
    } else {
      assert (a + "\n" + b)[1..] == a[1..] + "\n" + b;
      SplitLinesAppend(a[1..], b);
    }
  }

  lemma {:induction false} SplitSingleLine(line: string)
    requires '\n' !in line
    ensures SplitLines(line) == [line]
  {
    if line != "" {
      SplitSingleLine(line[1..]);
      assert line == [line[0]] + line[1..];
    }
  }

  lemma LastAssignmentSingle(line: string, key: string)
    ensures LastAssignment([line], key)
         == if HasPrefix(TrimSpace(line), key) then Some(TrimSpace(line)) else None
  {
    assert [line][..0] == [];
  }

  /** Inserting or deleting a line that assigns neither field changes nothing, wherever in
      the file it stands: in the middle, at the start, or at the end without a newline. */
  lemma IrrelevantLineIgnored(fold: char -> char, before: string, line: string, after: string)
    requires '\n' !in line && Irrelevant(line)
    ensures Distro(fold, before + "\n" + line + "\n" + after) == Distro(fold, before + "\n" + after)
    ensures Distro(fold, line + "\n" + after) == Distro(fold, after)
    ensures Distro(fold, before + "\n" + line) == Distro(fold, before)
  {
    SplitLinesAppend(before + "\n" + line, after);
    SplitLinesAppend(before, line);
    SplitLinesAppend(before, after);
    SplitLinesAppend(line, after);
    SplitSingleLine(line);
    IrrelevantInList(SplitLines(before), line, SplitLines(after), ID);
    IrrelevantInList(SplitLines(before), line, SplitLines(after), ID_LIKE);
  }

  lemma IrrelevantInList(before: seq<string>, line: string, after: seq<string>, key: string)
    requires !HasPrefix(TrimSpace(line), key)
    ensures LastAssignment(before + [line] + after, key) == LastAssignment(before + after, key)
    ensures LastAssignment([line] + after, key) == LastAssignment(after, key)
    ensures LastAssignment(before + [line], key) == LastAssignment(before, key)
  {
    LastAssignmentSingle(line, key);
    LastAssignmentAppend(before + [line], after, key);
    LastAssignmentAppend(before, [line], key);
    LastAssignmentAppend(before, after, key);
    LastAssignmentAppend([line], after, key);
  }

  /** What LastAssignment finds: the trimmed form of the line at i if that assigns the key
      and no later line does, and nothing if no line assigns it. So the scan depends on
      those two lines alone. */
  lemma {:induction false} LastAssignmentIs(lines: seq<string>, key: string, i: nat)
    ensures i < |lines| && HasPrefix(TrimSpace(lines[i]), key)
            && (forall j | i < j < |lines| :: !HasPrefix(TrimSpace(lines[j]), key))
            ==> LastAssignment(lines, key) == Some(TrimSpace(lines[i]))
    ensures LastAssignment(lines, key) == None <==> forall j | 0 <= j < |lines| :: !HasPrefix(TrimSpace(lines[j]), key)
  {
    if lines != [] {
      LastAssignmentIs(lines[..|lines| - 1], key, i);
    }
  }

  /** Lower-casing by character: 32 up for the ASCII capitals, nothing for other ASCII. */
  lemma LowerAt(fold: char -> char, s: string, i: nat)
    requires i < |s|
    ensures |Lower(fold, s)| == |s|
    ensures 65 <= s[i] as int <= 90 ==> Lower(fold, s)[i] as int == s[i] as int + 32
    ensures s[i] as int < 65 || 90 < s[i] as int < 128 ==> Lower(fold, s)[i] == s[i]
    ensures 128 <= s[i] as int ==> Lower(fold, s)[i] == fold(s[i])
  {
  }

  /** The value is what stands after the key between any quotes, lower-cased. */
  lemma ValueBetweenQuotes(fold: char -> char, key: string, open: string, core: string, close: string)
    requires (forall c | c in open :: c == '"') && (forall c | c in close :: c == '"')
    requires core != "" ==> core[0] != '"' && core[|core| - 1] != '"'
    ensures Value(fold, key + open + core + close, key) == Lower(fold, core)
  {
    var text := open + core + close;
    assert key + open + core + close == key + text;
    TrimPrefixOf(key + text, key, text);
    QuotesTrimmed(open, core, close);
  }

  lemma QuotesTrimmed(open: string, core: string, close: string)
    requires (forall c | c in open :: c == '"') && (forall c | c in close :: c == '"')
    requires core != "" ==> core[0] != '"' && core[|core| - 1] != '"'
    ensures TrimRight(TrimLeft(open + core + close, IsQuote), IsQuote) == core
  {
    if core == "" {
      TrimLeftOf(open + close, "", IsQuote);
      assert open + core + close == open + close + "";
    } else {
      TrimLeftOf(open, core + close, IsQuote);
      assert open + core + close == open + (core + close);
      TrimRightOf(core, close, IsQuote);
    }
  }

  /** Which name is returned. */
  lemma DecideIs(id: string, idLike: string)
    ensures var family := id == "ubuntu" || id == "debian"
        || exists before, after :: idLike == before + "ubuntu" + after || idLike == before + "debian" + after;
      Decide(id, idLike) == if !family then "" else if id != "" then id else idLike
  {
    ContainsIff(idLike, "ubuntu");
    ContainsIff(idLike, "debian");
  }

  /** A value that is written without quotes, capitals or space. */
  predicate Plain(value: string) {
    forall c | c in value :: 33 <= c as int < 127 && c != '"' && !(65 <= c as int <= 90)
  }

  lemma PlainField(fold: char -> char, key: string, value: string)
    requires key in [ID, ID_LIKE] && Plain(value)
    ensures TrimSpace(key + value) == key + value && '\n' !in key + value
    ensures Value(fold, key + value, key) == value
  {
    VisibleField(key, value);
    VisibleLine(key + value);
    if value != "" {
      assert value[0] in value && value[|value| - 1] in value;
    }
    ValueBetweenQuotes(fold, key, "", value, "");
    assert key + "" + value + "" == key + value;
    PlainIsLower(fold, value);
  }

  lemma VisibleField(key: string, value: string)
    requires key in [ID, ID_LIKE] && Plain(value)
    ensures Visible(key + value)
  {
    assert forall i | 0 <= i < |value| :: value[i] in value;
  }

  /** Printable ASCII without space. */
  predicate Visible(s: string) {
    forall i | 0 <= i < |s| :: 33 <= s[i] as int < 127
  }

  lemma VisibleLine(line: string)
    requires Visible(line)
    ensures TrimSpace(line) == line && '\n' !in line
  {
    if line != "" {
      SpaceIs(line[0]);
      SpaceIs(line[|line| - 1]);
    }
    TrimSpaceOf("", line, "");
    assert "" + line + "" == line;
  }

  lemma PlainIsLower(fold: char -> char, value: string)
    requires Plain(value)
    ensures Lower(fold, value) == value
  {
    forall i | 0 <= i < |value| ensures Lower(fold, value)[i] == value[i] {
      assert value[i] in value;
      LowerAt(fold, value, i);
    }
  }

  /** A file that ends in the two assignments, whatever stands before them. */
  lemma DistroOfFields(fold: char -> char, before: string, like: string, id: string)
    requires Plain(like) && Plain(id)
    ensures Distro(fold, before + "\n" + ("ID_LIKE=" + like) + "\n" + ("ID=" + id)) == Decide(id, like)
  {
    var likeLine, idLine := "ID_LIKE=" + like, "ID=" + id;
    PlainField(fold, ID_LIKE, like);
    PlainField(fold, ID, id);
    SplitLinesAppend(before + "\n" + likeLine, idLine);
    SplitLinesAppend(before, likeLine);
    SplitSingleLine(likeLine);
    SplitSingleLine(idLine);
    assert likeLine[2] == '_' && idLine[2] == '=' && ID[2] == '=' && ID_LIKE[2] == '_';
    LastTwo(SplitLines(before), likeLine, idLine);
  }

  lemma LastTwo(lines: seq<string>, likeLine: string, idLine: string)
    requires TrimSpace(likeLine) == likeLine && TrimSpace(idLine) == idLine
    requires HasPrefix(likeLine, ID_LIKE) && HasPrefix(idLine, ID) && !HasPrefix(idLine, ID_LIKE)
    ensures LastAssignment(lines + [likeLine] + [idLine], ID) == Some(idLine)
    ensures LastAssignment(lines + [likeLine] + [idLine], ID_LIKE) == Some(likeLine)
  {
    LastAssignmentSingle(idLine, ID);
    LastAssignmentSingle(idLine, ID_LIKE);
    LastAssignmentSingle(likeLine, ID_LIKE);
    LastAssignmentAppend(lines + [likeLine], [idLine], ID);
    LastAssignmentAppend(lines + [likeLine], [idLine], ID_LIKE);
    LastAssignmentAppend(lines, [likeLine], ID_LIKE);
  }

  /** A later assignment of a field overrides whatever came before it. */
  lemma LaterAssignmentWins(fold: char -> char, before: string, line: string, key: string)
    requires '\n' !in line && HasPrefix(TrimSpace(line), key)
    ensures Field(fold, SplitLines(before + "\n" + line), key) == Value(fold, TrimSpace(line), key)
  {
    SplitLinesAppend(before, line);
    SplitSingleLine(line);
    LastAssignmentSingle(line, key);
    LastAssignmentAppend(SplitLines(before), [line], key);
  }

  /** A distribution is reported exactly for the Debian family. */
  lemma NonEmptyIffDebianFamily(fold: char -> char, data: string)
    ensures Distro(fold, data) != "" <==>
      IsDebianFamily(Field(fold, SplitLines(data), ID), Field(fold, SplitLines(data), ID_LIKE))
  {
    assert !Contains("", "ubuntu") && !Contains("", "debian");
  }
}
