/** The DUKIntegrator err-file parser (src/anafpy/declaratii/duk.py): a stateful line loop
    against a declarative segmentation of the file. */
module DukErrFile {
  import opened Text
  import opened Wrappers

  // ---- Lines ---------------------------------------------------------------------------

  /** The line boundaries of `str.splitlines`. */
  predicate IsBreak(c: char) {
    '\n' <= c <= '\r' || '\U{1C}' <= c <= '\U{1E}' || c == '\U{85}' || c == '\U{2028}' || c == '\U{2029}'
  }

  /** `text.splitlines()`, `line` being the unfinished one; "\r\n" is one boundary. */
  function SplitLines(text: string, line: string): seq<string>
    decreases |text|
  {
    if text == "" then (if line == "" then [] else [line])
    else if IsBreak(text[0]) then
      [line] + SplitLines(if text[0] == '\r' && |text| > 1 && text[1] == '\n' then text[2..] else text[1..], "")
    else SplitLines(text[1..], line + [text[0]])
  }

  function Join(parts: seq<string>): string {
    if parts == [] then ""
    else if |parts| == 1 then parts[0]
    else parts[0] + "\n" + Join(parts[1..])
  }

  /** A text without line boundaries is one line, or none when empty. */
  predicate Unbroken(s: string) {
    forall i | 0 <= i < |s| :: !IsBreak(s[i])
  }

  /** Every line is unbroken. */
  lemma {:induction false} LinesAreUnbroken(text: string, line: string)
    requires Unbroken(line)
    ensures forall k | 0 <= k < |SplitLines(text, line)| :: Unbroken(SplitLines(text, line)[k])
    decreases |text|
  {
    if text == "" {
    } else if IsBreak(text[0]) {
      LinesAreUnbroken(if text[0] == '\r' && |text| > 1 && text[1] == '\n' then text[2..] else text[1..], "");
    } else {
      LinesAreUnbroken(text[1..], line + [text[0]]);
    }
  }

  /** The first boundary ends the first line: "\r\n" is one, any other character of its own. */
  lemma {:induction false} SplitAtBreak(first: string, rest: string, line: string)
    requires Unbroken(first)
    ensures rest == "" ==> SplitLines(first + rest, line) == if line + first == "" then [] else [line + first]
    ensures rest != "" && IsBreak(rest[0]) ==>
              SplitLines(first + rest, line) ==
              [line + first] + SplitLines(if rest[0] == '\r' && |rest| > 1 && rest[1] == '\n' then rest[2..] else rest[1..], "")
    decreases |first|
  {
    var text := first + rest;
    if first == "" {
      assert text == rest && line + first == line;
    } else {
      assert text[0] == first[0] && text[1..] == first[1..] + rest;
      SplitAtBreak(first[1..], rest, line + [first[0]]);
      assert line + [first[0]] + first[1..] == line + first;
    }
  }

  lemma BreaksExactly(c: char)
    ensures IsBreak(c) <==> c as int in {0x0A, 0x0B, 0x0C, 0x0D, 0x1C, 0x1D, 0x1E, 0x85, 0x2028, 0x2029}
    ensures IsBreak(c) ==> IsSpace(c)
  {
  }

  /** Parts are joined by newlines. */
  lemma {:induction false} JoinSnoc(parts: seq<string>, part: string)
    ensures Join([]) == "" && Join([part]) == part
    ensures parts != [] ==> Join(parts + [part]) == Join(parts) + "\n" + part
    decreases |parts|
  {
    if |parts| <= 1 {
      if |parts| == 1 {
        assert (parts + [part])[1..] == [part];
      }
    } else {
      assert (parts + [part])[1..] == parts[1..] + [part];
      JoinSnoc(parts[1..], part);
    }
  }

  // ---- The parser ------------------------------------------------------------------------

  datatype Severity = Error | Warning
  datatype Finding = Finding(severity: Severity, message: string)
  datatype DukResult = DukResult(ok: bool, findings: seq<Finding>, raw: string)

  /** The severity of a line that opens a finding. */
  function Opens(line: string): Option<Severity> {
    if "E:" <= line || "F:" <= line then Some(Error)
    else if "W:" <= line || "A:" <= line then Some(Warning)
    else None
  }

  /** A line opens a finding by its first two characters: "E:" and "F:" an error, "W:" and
      "A:" a warning. */
  lemma OpensExactly(line: string)
    ensures Opens(line) == Some(Error) <==> |line| >= 2 && line[0] in {'E', 'F'} && line[1] == ':'
    ensures Opens(line) == Some(Warning) <==> |line| >= 2 && line[0] in {'W', 'A'} && line[1] == ':'
    ensures Opens(line) == None <==> |line| < 2 || line[1] != ':' || line[0] !in {'E', 'F', 'W', 'A'}
  {
  }

  predicate IsBlank(line: string) {
    Strip(line) == ""
  }

  /** Blank lines are of white space only. */
  lemma BlankExactly(line: string)
    ensures IsBlank(line) <==> AllSpace(line)
  {
    var a, b := StripExactly(line);
    if Strip(line) != "" {
      assert line[|a|] == Strip(line)[0];
    }
  }

  // ---- The declarative segmentation --------------------------------------------------------

  /** The text one line contributes to the finding it belongs to. */
  function Part(line: string): seq<string> {
    if Opens(line).Some? then [Strip(line[2..])] else if IsBlank(line) then [] else [Strip(line)]
  }

  function Parts(lines: seq<string>): seq<string> {
    if lines == [] then [] else Parts(lines[..|lines| - 1]) + Part(lines[|lines| - 1])
  }

  /** The positions of the opening lines, in order. */
  function Starts(lines: seq<string>): seq<nat> {
    if lines == [] then [] else
    Starts(lines[..|lines| - 1]) + (if Opens(lines[|lines| - 1]).Some? then [|lines| - 1] else [])
  }

  datatype Section = Section(severity: Severity, parts: seq<string>)

  lemma {:induction false} StartsAreOpenings(lines: seq<string>)
    ensures forall j | 0 <= j < |Starts(lines)| :: Starts(lines)[j] < |lines| && Opens(lines[Starts(lines)[j]]).Some?
    ensures forall j, k | 0 <= j < k < |Starts(lines)| :: Starts(lines)[j] < Starts(lines)[k]
    ensures forall i | 0 <= i < |lines| && Opens(lines[i]).Some? :: i in Starts(lines)
  {
    if lines == [] {
    } else {
      StartsAreOpenings(lines[..|lines| - 1]);
    }
  }

  /** Segment `j` runs from its opening line to the next one, or to the end. */
  function SegmentEnd(lines: seq<string>, j: nat): nat
    requires j < |Starts(lines)|
  {
    if j + 1 < |Starts(lines)| then Starts(lines)[j + 1] else |lines|
  }

  function Segment(lines: seq<string>, j: nat): seq<string>
    requires j < |Starts(lines)|
  {
    StartsAreOpenings(lines);
    lines[Starts(lines)[j]..SegmentEnd(lines, j)]
  }

  function SectionAt(lines: seq<string>, j: nat): Section
    requires j < |Starts(lines)|
  {
    StartsAreOpenings(lines);
    Section(Opens(lines[Starts(lines)[j]]).value, Parts(Segment(lines, j)))
  }

  /** One section per opening line, in order, each made of its own segment. */
  function Sections(lines: seq<string>): seq<Section> {
    seq(|Starts(lines)|, j requires 0 <= j < |Starts(lines)| => SectionAt(lines, j))
  }

  function Messages(sections: seq<Section>): seq<Finding> {
    seq(|sections|, j requires 0 <= j < |sections| => Finding(sections[j].severity, Strip(Join(sections[j].parts))))
  }

  function Findings(lines: seq<string>): seq<Finding> {
    Messages(Sections(lines))
  }

  // ---- The loop computes it ------------------------------------------------------------------

  /** The nested `flush`. */
  function Flush(findings: seq<Finding>, severity: Option<Severity>, current: seq<string>): seq<Finding> {
    if severity.Some? then findings + [Finding(severity.value, Strip(Join(current)))] else findings
  }

  lemma MessagesSnoc(closed: seq<Section>, severity: Option<Severity>, current: seq<string>)
    ensures Messages(Held(closed, severity, current)) == Flush(Messages(closed), severity, current)
  {
  }

  lemma PartsSnoc(lines: seq<string>, line: string)
    ensures Parts(lines + [line]) == Parts(lines) + Part(line)
  {
  }

  lemma StartsSnoc(lines: seq<string>, line: string)
    ensures Starts(lines + [line]) == Starts(lines) + (if Opens(line).Some? then [|lines|] else [])
  {
  }

  /** What one more line does to the sections so far. */
  function Grown(sections: seq<Section>, line: string): seq<Section> {
    if Opens(line).Some? then sections + [Section(Opens(line).value, Part(line))]
    else if sections == [] then []
    else
      var last := sections[|sections| - 1];
      sections[..|sections| - 1] + [Section(last.severity, last.parts + Part(line))]
  }

  /** An earlier section does not see the new line. */
  lemma EarlierSectionSame(lines: seq<string>, line: string, j: nat)
    requires j < |Starts(lines)| && (Opens(line).Some? || j + 1 < |Starts(lines)|)
    ensures |Starts(lines + [line])| >= |Starts(lines)|
    ensures SectionAt(lines + [line], j) == SectionAt(lines, j)
  {
    StartsSnoc(lines, line);
    StartsAreOpenings(lines);
    StartsAreOpenings(lines + [line]);
    assert Segment(lines + [line], j) == Segment(lines, j);
  }

  lemma LastSectionGrows(lines: seq<string>, line: string)
    requires Opens(line).None? && Starts(lines) != []
    ensures |Starts(lines + [line])| == |Starts(lines)|
    ensures var j := |Starts(lines)| - 1;
            SectionAt(lines + [line], j) == Section(SectionAt(lines, j).severity, SectionAt(lines, j).parts + Part(line))
  {
    var j := |Starts(lines)| - 1;
    StartsSnoc(lines, line);
    StartsAreOpenings(lines);
    assert Segment(lines + [line], j) == Segment(lines, j) + [line];
    PartsSnoc(Segment(lines, j), line);
  }

  lemma NewSection(lines: seq<string>, line: string)
    requires Opens(line).Some?
    ensures |Starts(lines + [line])| == |Starts(lines)| + 1
    ensures SectionAt(lines + [line], |Starts(lines)|) == Section(Opens(line).value, Part(line))
  {
    StartsSnoc(lines, line);
    assert Segment(lines + [line], |Starts(lines)|) == [line];
    PartsSnoc([], line);
    assert [] + [line] == [line];
  }

  lemma SectionsElements(lines: seq<string>)
    ensures |Sections(lines)| == |Starts(lines)|
    ensures forall j | 0 <= j < |Starts(lines)| :: Sections(lines)[j] == SectionAt(lines, j)
  {
  }

  lemma EqualButLast(a: seq<Section>, b: seq<Section>, n: nat, last: Section)
    requires n <= |b| && |a| == n + 1 && a[n] == last
    requires forall j | 0 <= j < n :: a[j] == b[j]
    ensures a == b[..n] + [last]
  {
  }

  lemma SectionsOpened(lines: seq<string>, line: string)
    requires Opens(line).Some?
    ensures Sections(lines + [line]) == Sections(lines) + [Section(Opens(line).value, Part(line))]
  {
    var s, more, n := Sections(lines), Sections(lines + [line]), |Starts(lines)|;
    SectionsElements(lines);
    SectionsElements(lines + [line]);
    NewSection(lines, line);
    forall j | 0 <= j < n ensures more[j] == s[j] {
      EarlierSectionSame(lines, line, j);
    }
    EqualButLast(more, s, n, Section(Opens(line).value, Part(line)));
    assert s[..n] == s;
  }

  lemma SectionsContinued(lines: seq<string>, line: string)
    requires Opens(line).None? && Sections(lines) != []
    ensures var s := Sections(lines);
            var last := s[|s| - 1];
            Sections(lines + [line]) == s[..|s| - 1] + [Section(last.severity, last.parts + Part(line))]
  {
    var s, more, n := Sections(lines), Sections(lines + [line]), |Starts(lines)| - 1;
    SectionsElements(lines);
    SectionsElements(lines + [line]);
    LastSectionGrows(lines, line);
    forall j | 0 <= j < n ensures more[j] == s[j] {
      EarlierSectionSame(lines, line, j);
    }
    EqualButLast(more, s, n, Section(s[n].severity, s[n].parts + Part(line)));
  }

  lemma SectionsSnoc(lines: seq<string>, line: string)
    ensures Sections(lines + [line]) == Grown(Sections(lines), line)
  {
    if Opens(line).Some? {
      SectionsOpened(lines, line);
    } else if Sections(lines) != [] {
      SectionsContinued(lines, line);
    } else {
      StartsSnoc(lines, line);
    }
  }

  /** The sections a loop state stands for: the flushed ones and the one being read. */
  function Held(closed: seq<Section>, severity: Option<Severity>, current: seq<string>): seq<Section> {
    if severity.Some? then closed + [Section(severity.value, current)] else closed
  }

  /** One iteration's effect on what the loop state stands for. */
  lemma HeldGrows(before: seq<string>, closed: seq<Section>, severity: Option<Severity>, current: seq<string>, line: string)
    requires Sections(before) == Held(closed, severity, current) && (severity.None? ==> closed == [])
    ensures Sections(before + [line]) ==
            if Opens(line).Some? then Held(Held(closed, severity, current), Opens(line), [Strip(line[2..])])
            else Held(closed, severity, if IsBlank(line) then current else current + [Strip(line)])
  {
    SectionsSnoc(before, line);
    assert current + [] == current;
  }

  /** The loop state after the lines `before`: the findings flushed, and the one being read. */
  ghost predicate Reads(before: seq<string>, closed: seq<Section>, findings: seq<Finding>, severity: Option<Severity>, current: seq<string>) {
    && findings == Messages(closed)
    && Sections(before) == Held(closed, severity, current)
    && (severity.None? ==> closed == [])
  }

  lemma ReadOpening(before: seq<string>, line: string, closed: seq<Section>, findings: seq<Finding>, severity: Option<Severity>, current: seq<string>)
    requires Reads(before, closed, findings, severity, current) && Opens(line).Some?
    ensures Reads(before + [line], Held(closed, severity, current), Flush(findings, severity, current), Opens(line), [Strip(line[2..])])
  {
    HeldGrows(before, closed, severity, current, line);
    MessagesSnoc(closed, severity, current);
  }

  lemma ReadOther(before: seq<string>, line: string, closed: seq<Section>, findings: seq<Finding>, severity: Option<Severity>, current: seq<string>)
    requires Reads(before, closed, findings, severity, current) && Opens(line).None?
    ensures Reads(before + [line], closed, findings, severity,
                  if severity.Some? && !IsBlank(line) then current + [Strip(line)] else current)
  {
    HeldGrows(before, closed, severity, current, line);
  }

  lemma ReadAll(lines: seq<string>, closed: seq<Section>, findings: seq<Finding>, severity: Option<Severity>, current: seq<string>)
    requires Reads(lines, closed, findings, severity, current)
    ensures Flush(findings, severity, current) == Findings(lines)
  {
  }

  /** The source's loop. (The rule id it also extracts from each message is left out.) */
  method ParseErrFile(text: string) returns (result: DukResult)
    ensures result.raw == text
    ensures result.findings == if Strip(text) == "ok" then [] else Findings(SplitLines(text, ""))
    ensures result.ok <==> Strip(text) == "ok" ||
                           (result.findings != [] && forall i | 0 <= i < |result.findings| :: result.findings[i].severity != Error)
  {
    if Strip(text) == "ok" {
      return DukResult(true, [], text);
    }
    var lines := SplitLines(text, "");
    var findings: seq<Finding>, current: seq<string>, severity: Option<Severity> := [], [], None;
    ghost var closed: seq<Section> := [];
    for i := 0 to |lines|
      invariant Reads(lines[..i], closed, findings, severity, current)
    {
      var line := lines[i];
      assert lines[..i + 1] == lines[..i] + [line];
      var mapped := Opens(line);
      if mapped.Some? {
        ReadOpening(lines[..i], line, closed, findings, severity, current);
        findings, closed := Flush(findings, severity, current), Held(closed, severity, current);
        severity, current := mapped, [Strip(line[2..])];
      } else {
        ReadOther(lines[..i], line, closed, findings, severity, current);
        if severity.Some? && !IsBlank(line) {
          current := current + [Strip(line)];
        }
      }
    }
    assert lines[..|lines|] == lines;
    ReadAll(lines, closed, findings, severity, current);
    findings := Flush(findings, severity, current);
    var hasError := exists i | 0 <= i < |findings| :: findings[i].severity == Error;
    return DukResult(findings != [] && !hasError, findings, text);
  }

  // ---- What the segmentation means -------------------------------------------------------------

  /** The findings match the opening lines one for one, in order and severity. */
  lemma FindingsMatchOpenings(lines: seq<string>)
    ensures |Findings(lines)| == |Starts(lines)|
    ensures forall j | 0 <= j < |Starts(lines)| ::
              Starts(lines)[j] < |lines| && Opens(lines[Starts(lines)[j]]) == Some(Findings(lines)[j].severity)
    ensures forall i | 0 <= i < |lines| :: Opens(lines[i]).Some? <==> i in Starts(lines)
  {
    StartsAreOpenings(lines);
  }

  lemma FindingOf(lines: seq<string>, j: nat)
    requires j < |Starts(lines)|
    ensures |Findings(lines)| == |Starts(lines)|
    ensures Findings(lines)[j].message == Strip(Join(Parts(Segment(lines, j))))
  {
    SectionsElements(lines);
    assert Findings(lines)[j] == Finding(SectionAt(lines, j).severity, Strip(Join(SectionAt(lines, j).parts)));
  }

  lemma NoneBetween(lines: seq<string>, j: nat, i: nat)
    requires j < |Starts(lines)| && Starts(lines)[j] < i < |lines|
    requires j + 1 < |Starts(lines)| ==> i < Starts(lines)[j + 1]
    ensures Opens(lines[i]).None?
  {
    StartsAreOpenings(lines);
    forall k | 0 <= k < |Starts(lines)| ensures Starts(lines)[k] != i {
      if k < j {
        assert Starts(lines)[k] < Starts(lines)[j];
      } else if k > j + 1 {
        assert Starts(lines)[j + 1] < Starts(lines)[k];
      }
    }
  }

  /** What a finding says: its opening line without the prefix, then the non-blank lines up
      to the next opening, each stripped, on lines of their own. */
  lemma FindingMessage(lines: seq<string>, j: nat, to: nat)
    requires j < |Starts(lines)| && to == if j + 1 < |Starts(lines)| then Starts(lines)[j + 1] else |lines|
    ensures |Findings(lines)| == |Starts(lines)| && Starts(lines)[j] < to <= |lines|
    ensures Findings(lines)[j].message == Strip(Join(Parts(lines[Starts(lines)[j]..to])))
    ensures forall i | Starts(lines)[j] < i < to :: Opens(lines[i]).None?
  {
    StartsAreOpenings(lines);
    FindingOf(lines, j);
    forall i | Starts(lines)[j] < i < to ensures Opens(lines[i]).None? {
      NoneBetween(lines, j, i);
    }
  }

  function AllParts(sections: seq<Section>): seq<string> {
    if sections == [] then [] else AllParts(sections[..|sections| - 1]) + sections[|sections| - 1].parts
  }

  /** The lines from the first opening line on. */
  function FromFirstOpening(lines: seq<string>): seq<string> {
    StartsAreOpenings(lines);
    if Starts(lines) == [] then [] else lines[Starts(lines)[0]..]
  }

  /** The sections partition the text: put end to end, their parts are exactly the
      contributions of every line from the first opening line on, in order. So each
      non-blank line lands in exactly one finding. */
  lemma {:induction false} SectionsPartitionLines(lines: seq<string>)
    ensures AllParts(Sections(lines)) == Parts(FromFirstOpening(lines))
  {
    if lines == [] {
    } else {
      var front, line := lines[..|lines| - 1], lines[|lines| - 1];
      assert lines == front + [line];
      SectionsPartitionLines(front);
      SectionsSnoc(front, line);
      GrownParts(Sections(front), line);
      FromFirstSnoc(front, line);
      PartsSnoc(FromFirstOpening(front), line);
    }
  }

  lemma FromFirstSnoc(lines: seq<string>, line: string)
    ensures FromFirstOpening(lines + [line]) ==
            if Opens(line).Some? || Sections(lines) != [] then FromFirstOpening(lines) + [line] else []
  {
    StartsSnoc(lines, line);
    StartsAreOpenings(lines);
    if Sections(lines) != [] {
      assert Starts(lines + [line])[0] == Starts(lines)[0];
    }
  }

  lemma GrownParts(sections: seq<Section>, line: string)
    ensures AllParts(Grown(sections, line)) ==
            AllParts(sections) + (if Opens(line).Some? || sections != [] then Part(line) else [])
  {
  }
}
