/**
 Enforcing Database Lab's settings in postgresql.conf (adjustGeneralConfigs of
 internal/provision/databases/postgres/pgconfig/configuration.go): parameters
 are commented out and lines appended, and a label in the first line says that
 it has been done.
 */
module PgAdjust {
  import opened PgConfig

  const INITIALIZED_LABEL := "## DBLAB_INITIALIZED"

  // ------------------------------------------------------ lines and text

  function Split(text: string): (lines: seq<string>)
    ensures lines != []
    decreases |text|
  {
    var i := IndexOf(text, '\n');
    if i == |text| then [text] else [text[..i]] + Split(text[i + 1..])
  }

  function Join(lines: seq<string>): string {
    if lines == [] then ""
    else if |lines| == 1 then lines[0]
    else lines[0] + "\n" + Join(lines[1..])
  }

  predicate AreLines(lines: seq<string>) {
    forall k :: 0 <= k < |lines| ==> '\n' !in lines[k]
  }

  lemma {:induction false} SplitJoin(lines: seq<string>)
    requires lines != [] && AreLines(lines)
    ensures Split(Join(lines)) == lines
  {
    var text := Join(lines);
    IndexIs(text, '\n', |lines[0]|);
    if |lines| > 1 {
      assert text == lines[0] + ("\n" + Join(lines[1..]));
      assert text[|lines[0]| + 1..] == Join(lines[1..]);
      SplitJoin(lines[1..]);
    } else {
      assert text == lines[0] && [text] == lines;
    }
  }

  lemma {:induction false} SplitAreLines(text: string)
    ensures AreLines(Split(text))
    decreases |text|
  {
    var i := IndexOf(text, '\n');
    if i < |text| {
      SplitAreLines(text[i + 1..]);
    }
  }

  // ------------------------------------------------------ the source lines

  predicate Skipped(line: string) {
    "##" <= line || (!("#" <= line) && Trim(line, IsSpace) == "")
  }

  predicate Comments(line: string) {
    "#" <= line && !("##" <= line)
  }

  /** The parameter a comment line names. */
  function Param(line: string): string
    requires Comments(line)
  {
    Trim(line[1..], IsSpace)
  }

  predicate Active(line: string) {
    !Skipped(line) && !Comments(line)
  }

  function Mark(line: string, param: string): string {
    if param <= line then "#" + line else line
  }

  function CommentOut(lines: seq<string>, param: string): (r: seq<string>)
    ensures |r| == |lines|
  {
    seq(|lines|, k requires 0 <= k < |lines| => Mark(lines[k], param))
  }

  /** What one source line does to the lines gathered so far. */
  function ApplyLine(line: string, dst: seq<string>): seq<string> {
    if Comments(line) then CommentOut(dst, Param(line))
    else if Active(line) then dst + [line]
    else dst
  }

  /** The loop over the source lines. */
  function ApplySource(src: seq<string>, dst: seq<string>): seq<string>
    decreases |src|
  {
    if src == [] then dst else ApplySource(src[1..], ApplyLine(src[0], dst))
  }

  function AdjustLines(src: seq<string>, dst: seq<string>): seq<string>
    requires dst != []
  {
    if dst[0] == INITIALIZED_LABEL then dst else ApplySource(src, [INITIALIZED_LABEL] + dst)
  }

  /** The new content of the destination file. */
  function Adjust(src: string, dst: string): string {
    if Split(dst)[0] == INITIALIZED_LABEL then dst
    else Join(AdjustLines(Split(src), Split(dst)))
  }

  lemma {:induction false} BlankIff(line: string)
    ensures Trim(line, IsSpace) == "" <==> AllOf(line, IsSpace)
  {
    if AllOf(line, IsSpace) {
      TrimIs(line, "", "", IsSpace);
      assert line + "" + "" == line;
    } else {
      var k :| 0 <= k < |line| && !IsSpace(line[k]);
      NotBlank(line, k);
    }
  }

  lemma {:induction false} NotBlank(line: string, k: nat)
    requires k < |line| && !IsSpace(line[k])
    ensures Trim(line, IsSpace) != ""
    decreases |line|
  {
    if k > 0 && IsSpace(line[0]) {
      NotBlank(line[1..], k - 1);
    } else {
      NotBlankRight(line, k);
    }
  }

  lemma {:induction false} NotBlankRight(line: string, k: nat)
    requires k < |line| && !IsSpace(line[k])
    ensures TrimRight(line, IsSpace) != ""
    decreases |line|
  {
    if IsSpace(line[|line| - 1]) {
      NotBlankRight(line[..|line| - 1], k);
    }
  }

  /**
   The three kinds of source lines: with one '#' in front it comments a parameter out,
   with two it is skipped, as is a line of nothing but space; any other is appended.
   */
  lemma LineKinds(line: string)
    ensures Comments(line) <==> |line| > 0 && line[0] == '#' && (|line| > 1 ==> line[1] != '#')
    ensures Active(line) <==> (exists k :: 0 <= k < |line| && !IsSpace(line[k])) && line[0] != '#'
  {
    BlankIff(line);
  }

  /** The parameter is what stands after the '#', without the space around it. */
  lemma ParamIs(a: string, param: string, b: string)
    requires AllOf(a, IsSpace) && Tight(param, IsSpace) && AllOf(b, IsSpace)
    requires Comments("#" + (a + param + b))
    ensures Param("#" + (a + param + b)) == param
  {
    assert ("#" + (a + param + b))[1..] == a + param + b;
    TrimIs(a, param, b, IsSpace);
  }

  // ------------------------------------------------------------ structure

  /** One line after all the comments of the source. */
  function MarkAll(src: seq<string>, line: string): string {
    if src == [] then line
    else MarkAll(src[1..], if Comments(src[0]) then Mark(line, Param(src[0])) else line)
  }

  function MarkLines(src: seq<string>, lines: seq<string>): seq<string> {
    seq(|lines|, k requires 0 <= k < |lines| => MarkAll(src, lines[k]))
  }

  /** The active source lines in order, each under the comments that follow it. */
  function Appended(src: seq<string>): seq<string> {
    if src == [] then []
    else (if Active(src[0]) then [MarkAll(src[1..], src[0])] else []) + Appended(src[1..])
  }

  /** Going one source line further does not change what all of them do. */
  lemma MarkLinesStep(src: seq<string>, dst: seq<string>)
    requires src != []
    ensures MarkLines(src[1..], ApplyLine(src[0], dst)) ==
      MarkLines(src, dst) + if Active(src[0]) then [MarkAll(src[1..], src[0])] else []
  {
  }

  /** The loop's result: the old lines marked, then the active source lines. */
  lemma {:induction false} ApplySourceIs(src: seq<string>, dst: seq<string>)
    ensures ApplySource(src, dst) == MarkLines(src, dst) + Appended(src)
    decreases |src|
  {
    if src == [] {
      assert MarkLines(src, dst) == dst;
    } else {
      ApplySourceIs(src[1..], ApplyLine(src[0], dst));
      MarkLinesStep(src, dst);
    }
  }

  /** Some comment of the source names a parameter that the line starts with. */
  ghost predicate Matched(src: seq<string>, line: string) {
    exists c :: 0 <= c < |src| && Comments(src[c]) && Param(src[c]) <= line
  }

  /** Comments name a parameter, and that does not start with '#'. */
  ghost predicate ParamsOk(src: seq<string>) {
    forall c :: 0 <= c < |src| && Comments(src[c]) ==> Param(src[c]) != "" && Param(src[c])[0] != '#'
  }

  lemma MatchedStep(src: seq<string>, line: string)
    requires src != []
    ensures Matched(src, line) <==> (Comments(src[0]) && Param(src[0]) <= line) || Matched(src[1..], line)
  {
  }

  /** Marking leaves a line as it is exactly when nothing matches it; otherwise the line grows. */
  lemma {:induction false} MarkAllChanges(src: seq<string>, line: string)
    ensures |MarkAll(src, line)| >= |line|
    ensures MarkAll(src, line) == line <==> !Matched(src, line)
  {
    if src != [] {
      MatchedStep(src, line);
      MarkAllChanges(src[1..], if Comments(src[0]) then Mark(line, Param(src[0])) else line);
      if Comments(src[0]) && Param(src[0]) <= line {
        assert |MarkAll(src, line)| > |line|;
      }
    }
  }

  /** With proper parameters a line is marked at most once. */
  lemma {:induction false} MarkedOnce(src: seq<string>, line: string)
    requires ParamsOk(src)
    ensures MarkAll(src, line) == if Matched(src, line) then "#" + line else line
  {
    if src != [] {
      MatchedStep(src, line);
      assert ParamsOk(src[1..]) by { assert forall c :: 0 <= c < |src| - 1 ==> src[1..][c] == src[c + 1]; }
      if Comments(src[0]) && Param(src[0]) <= line {
        MarkAllChanges(src[1..], "#" + line);
        forall c | 0 <= c < |src[1..]| && Comments(src[1..][c]) ensures !(Param(src[1..][c]) <= "#" + line) {
          assert Param(src[1..][c])[0] != ("#" + line)[0];
        }
      } else {
        MarkedOnce(src[1..], line);
      }
    }
  }

  ghost function Once(src: seq<string>, line: string): string {
    if Matched(src, line) then "#" + line else line
  }

  lemma OldLines(src: seq<string>, dst: seq<string>, k: nat)
    requires ParamsOk(src) && k < |dst|
    ensures MarkLines(src, [INITIALIZED_LABEL] + dst)[1 + k] == Once(src, dst[k])
  {
    MarkedOnce(src, dst[k]);
    assert ([INITIALIZED_LABEL] + dst)[1 + k] == dst[k];
  }

  lemma LabelFirst(src: seq<string>, dst: seq<string>)
    requires ParamsOk(src)
    ensures MarkLines(src, [INITIALIZED_LABEL] + dst)[0] == INITIALIZED_LABEL
  {
    LabelUnmatched(src);
    MarkedOnce(src, INITIALIZED_LABEL);
  }

  /**
   The result of a first run: the label, every old line in order, each as it was
   or with exactly one '#' added, then the source's active lines by the same rule.
   */
  lemma FirstRunShape(src: seq<string>, dst: seq<string>)
    requires dst != [] && dst[0] != INITIALIZED_LABEL && ParamsOk(src)
    ensures var out := AdjustLines(src, dst);
      && |out| == 1 + |dst| + |Appended(src)|
      && out[0] == INITIALIZED_LABEL
      && (forall k :: 0 <= k < |dst| ==> out[1 + k] == if Matched(src, dst[k]) then "#" + dst[k] else dst[k])
      && out[1 + |dst|..] == Appended(src)
  {
    var marked := MarkLines(src, [INITIALIZED_LABEL] + dst);
    ApplySourceIs(src, [INITIALIZED_LABEL] + dst);
    LabelFirst(src, dst);
    forall k | 0 <= k < |dst| ensures marked[1 + k] == Once(src, dst[k]) {
      OldLines(src, dst, k);
    }
    assert AdjustLines(src, dst) == marked + Appended(src);
  }

  lemma LabelUnmatched(src: seq<string>)
    requires ParamsOk(src)
    ensures !Matched(src, INITIALIZED_LABEL)
  {
    forall c | 0 <= c < |src| && Comments(src[c]) ensures !(Param(src[c]) <= INITIALIZED_LABEL) {
      assert Param(src[c])[0] != INITIALIZED_LABEL[0];
    }
  }

  lemma {:induction false} AppendedFrom(src: seq<string>, x: string) returns (a: nat)
    requires x in Appended(src)
    ensures a < |src| && Active(src[a]) && x == MarkAll(src[a + 1..], src[a])
  {
    if Active(src[0]) && x == MarkAll(src[1..], src[0]) {
      a := 0;
    } else {
      assert x in Appended(src[1..]);
      a := AppendedFrom(src[1..], x);
      a := a + 1;
      assert src[1..][a - 1] == src[a] && src[1..][a..] == src[a + 1..];
    }
  }

  /** A proper parameter does not start a line that has been marked. */
  lemma NotMarked(src: seq<string>, line: string, param: string)
    requires ParamsOk(src) && param != "" && param[0] != '#' && param <= MarkAll(src, line)
    ensures MarkAll(src, line) == line
  {
  }

  /** After a comment has been applied, no line starts with its parameter. */
  lemma CommentedIsMarked(src: seq<string>, line: string, c: nat)
    requires ParamsOk(src) && c < |src| && Comments(src[c])
    ensures !(Param(src[c]) <= MarkAll(src, line))
  {
    if Param(src[c]) <= MarkAll(src, line) {
      NotMarked(src, line, Param(src[c]));
      assert Matched(src, line);
      MarkAllChanges(src, line);
    }
  }

  lemma AppendedLater(src: seq<string>, x: string, c: nat) returns (a: nat)
    requires ParamsOk(src) && x in Appended(src) && c < |src| && Comments(src[c]) && Param(src[c]) <= x
    ensures c < a < |src| && Active(src[a]) && x == src[a]
  {
    a := AppendedFrom(src, x);
    var rest := src[a + 1..];
    assert ParamsOk(rest) by { assert forall k :: 0 <= k < |rest| ==> rest[k] == src[a + 1 + k]; }
    NotMarked(rest, src[a], Param(src[c]));
    if c > a {
      assert rest[c - a - 1] == src[c];
      CommentedIsMarked(rest, src[a], c - a - 1);
    }
  }

  /** A line of the result that starts with a commented parameter is a source line placed after that comment. */
  lemma CommentedComeLater(src: seq<string>, dst: seq<string>, i: nat, c: nat)
    requires dst != [] && dst[0] != INITIALIZED_LABEL && ParamsOk(src)
    requires i < |AdjustLines(src, dst)| && c < |src| && Comments(src[c]) && Param(src[c]) <= AdjustLines(src, dst)[i]
    ensures exists a :: c < a < |src| && Active(src[a]) && AdjustLines(src, dst)[i] == src[a]
  {
    var all, x := [INITIALIZED_LABEL] + dst, AdjustLines(src, dst)[i];
    ApplySourceIs(src, all);
    if i < |all| {
      CommentedIsMarked(src, all[i], c);
    } else {
      assert x == Appended(src)[i - |all|];
      var a := AppendedLater(src, x, c);
    }
  }

  // ---------------------------------------------------------- idempotence

  lemma {:induction false} MarkAllIsLine(src: seq<string>, line: string)
    requires '\n' !in line
    ensures '\n' !in MarkAll(src, line)
  {
    if src != [] {
      MarkAllIsLine(src[1..], if Comments(src[0]) then Mark(line, Param(src[0])) else line);
    }
  }

  lemma {:induction false} AppendedAreLines(src: seq<string>)
    requires AreLines(src)
    ensures AreLines(Appended(src))
  {
    if src != [] {
      MarkAllIsLine(src[1..], src[0]);
      AppendedAreLines(src[1..]);
    }
  }

  lemma AdjustAreLines(src: seq<string>, dst: seq<string>)
    requires AreLines(src) && AreLines(dst) && dst != []
    ensures AreLines(AdjustLines(src, dst))
  {
    var all := [INITIALIZED_LABEL] + dst;
    ApplySourceIs(src, all);
    forall k | 0 <= k < |all| ensures '\n' !in MarkAll(src, all[k]) {
      MarkAllIsLine(src, all[k]);
    }
    AppendedAreLines(src);
  }

  /**
   A second run changes nothing, if and only if the file was already labelled or
   no comment of the source names a beginning of the label itself.
   */
  lemma IdempotentIff(src: string, dst: string)
    ensures Adjust(src, Adjust(src, dst)) == Adjust(src, dst) <==>
      Split(dst)[0] == INITIALIZED_LABEL || !Matched(Split(src), INITIALIZED_LABEL)
  {
    var s, d := Split(src), Split(dst);
    if d[0] != INITIALIZED_LABEL {
      var out := AdjustLines(s, d);
      SplitAreLines(src);
      SplitAreLines(dst);
      AdjustAreLines(s, d);
      ApplySourceIs(s, [INITIALIZED_LABEL] + d);
      MarkAllChanges(s, INITIALIZED_LABEL);
      assert out[0] == MarkAll(s, INITIALIZED_LABEL);
      SplitJoin(out);
      if out[0] != INITIALIZED_LABEL {
        var again := AdjustLines(s, out);
        AdjustAreLines(s, out);
        ApplySourceIs(s, [INITIALIZED_LABEL] + out);
        assert |again| > |out|;
        SplitJoin(again);
      }
    }
  }
}
