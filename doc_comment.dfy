/** The documentation comment written above each node's wrapper struct.
    Comment lines indented by four spaces are Ruby examples: every maximal
    run of them is wrapped in a "```ruby" ... "```" fence and loses its
    indentation; every other line is copied as it is. Each output line is
    a `///` doc comment. */
module DocComment {

  const Indent: string := "    "

  predicate IsIndented(line: string) {
    |line| >= |Indent| && line[..|Indent|] == Indent
  }

  /** The line as it appears inside the doc comment: an indented line
      without its four leading spaces, any other line unchanged. */
  function Stripped(line: string): string {
    if IsIndented(line) then line[|Indent|..] else line
  }

  /** The structure of the emitted doc comment, one value per output line. */
  datatype DocLine = OpenFence | CloseFence | Text(text: string)

  /** The doc lines one comment line contributes when the example flag is
      `example`: an indented line opens a fence unless one is open, a plain
      line closes the open fence. */
  function Step(line: string, example: bool): seq<DocLine> {
    if IsIndented(line) then
      (if example then [Text(Stripped(line))] else [OpenFence, Text(Stripped(line))])
    else
      (if example then [CloseFence, Text(line)] else [Text(line)])
  }

  /** The doc lines emitted for `lines` when the example flag starts as
      `example`; a fence still open at the end is closed. */
  function FencedFrom(lines: seq<string>, example: bool): seq<DocLine> {
    if lines == [] then (if example then [CloseFence] else [])
    else Step(lines[0], example) + FencedFrom(lines[1..], IsIndented(lines[0]))
  }

  function Fenced(lines: seq<string>): seq<DocLine> {
    FencedFrom(lines, false)
  }

  function RenderDocLine(d: DocLine): string {
    match d
    case OpenFence => "/// ```ruby"
    case CloseFence => "/// ```"
    case Text(t) => "/// " + t
  }

  function RenderDoc(ds: seq<DocLine>): (r: seq<string>)
    ensures |r| == |ds|
  {
    seq(|ds|, i requires 0 <= i < |ds| => RenderDocLine(ds[i]))
  }

  lemma RenderDocAppend(a: seq<DocLine>, b: seq<DocLine>)
    ensures RenderDoc(a + b) == RenderDoc(a) + RenderDoc(b)
  {
  }

  lemma RenderStep(line: string, example: bool)
    ensures RenderDoc(Step(line, example))
         == (if IsIndented(line) && !example then ["/// ```ruby"] else [])
          + (if !IsIndented(line) && example then ["/// ```"] else [])
          + ["/// " + Stripped(line)]
  {
  }

  /** Emitting one line's doc lines keeps "emitted so far, then what the
      remaining lines will emit" equal to the whole comment. */
  lemma FenceLoopStep(lines: seq<string>, i: nat, example: bool, before: seq<string>)
    requires i < |lines|
    requires before + RenderDoc(FencedFrom(lines[i..], example)) == RenderDoc(Fenced(lines))
    ensures (before + RenderDoc(Step(lines[i], example)))
          + RenderDoc(FencedFrom(lines[i + 1..], IsIndented(lines[i])))
         == RenderDoc(Fenced(lines))
  {
    assert lines[i..][0] == lines[i] && lines[i..][1..] == lines[i + 1..];
    RenderDocAppend(Step(lines[i], example), FencedFrom(lines[i + 1..], IsIndented(lines[i])));
  }

  /** The fencing loop of `write_node`: a two-state machine over the comment
      lines, with a closing fence after the last line when a run is open. */
  method FenceComment(lines: seq<string>) returns (out: seq<string>)
    ensures out == RenderDoc(Fenced(lines))
  {
    var example := false;
    out := [];
    var i := 0;
    while i < |lines|
      invariant 0 <= i <= |lines|
      invariant out + RenderDoc(FencedFrom(lines[i..], example)) == RenderDoc(Fenced(lines))
    {
      var line := lines[i];
      FenceLoopStep(lines, i, example, out);
      RenderStep(line, example);
      ghost var emitted := out + RenderDoc(Step(line, example));
      if IsIndented(line) {
        if !example {
          out := out + ["/// ```ruby"];
          example := true;
        }
        out := out + ["/// " + line[|Indent|..]];
      } else {
        if example {
          out := out + ["/// ```"];
          example := false;
        }
        out := out + ["/// " + line];
      }
      assert out == emitted;
      i := i + 1;
    }
    assert lines[i..] == [];
    if example {
      out := out + ["/// ```"];
    }
  }

  // ---------------------------------------------------------------------
  // Properties

  /** Reading a doc comment back: the fences are dropped and the lines
      inside a fence get their four spaces of indentation back. */
  function UnfenceFrom(ds: seq<DocLine>, inFence: bool): seq<string> {
    if ds == [] then []
    else match ds[0]
      case OpenFence => UnfenceFrom(ds[1..], true)
      case CloseFence => UnfenceFrom(ds[1..], false)
      case Text(t) => [if inFence then Indent + t else t] + UnfenceFrom(ds[1..], inFence)
  }

  /** Fences alternate (open, close, open, ...), every open fence is closed,
      no fence is empty, and a closing fence is followed by a plain line or
      by the end, so that no fence closes right before another opens. */
  predicate WellFencedFrom(ds: seq<DocLine>, inFence: bool) {
    if ds == [] then !inFence
    else match ds[0]
      case OpenFence =>
        !inFence && |ds| > 1 && ds[1].Text? && WellFencedFrom(ds[1..], true)
      case CloseFence =>
        inFence && (|ds| == 1 || ds[1].Text?) && WellFencedFrom(ds[1..], false)
      case Text(_) => WellFencedFrom(ds[1..], inFence)
  }

  /** One comment line's doc lines, followed by `r`, unfence to the line
      itself followed by what `r` unfences to. */
  lemma UnfenceStep(line: string, example: bool, r: seq<DocLine>)
    ensures UnfenceFrom(Step(line, example) + r, example) == [line] + UnfenceFrom(r, IsIndented(line))
  {
    var next := IsIndented(line);
    var t := [Text(Stripped(line))] + r;
    assert t[1..] == r;
    if next {
      assert Indent + line[|Indent|..] == line;
    }
    assert UnfenceFrom(t, next) == [line] + UnfenceFrom(r, next);
    if next == example {
      assert Step(line, example) + r == t;
    } else {
      var d := Step(line, example) + r;
      assert d == [if next then OpenFence else CloseFence] + t;
      assert d[1..] == t;
    }
  }

  lemma {:induction false} FencedRoundTripFrom(lines: seq<string>, example: bool)
    ensures UnfenceFrom(FencedFrom(lines, example), example) == lines
  {
    if lines != [] {
      var next := IsIndented(lines[0]);
      FencedRoundTripFrom(lines[1..], next);
      UnfenceStep(lines[0], example, FencedFrom(lines[1..], next));
      assert lines == [lines[0]] + lines[1..];
    }
  }

  /** Unfencing the emitted comment gives back the original comment lines:
      every line yields exactly one content line, in order, and a line lies
      inside a fence exactly when it was indented. */
  lemma FencedRoundTrip(lines: seq<string>)
    ensures UnfenceFrom(Fenced(lines), false) == lines
  {
    FencedRoundTripFrom(lines, false);
  }

  /** One comment line's doc lines keep a well-fenced continuation well
      fenced: a fence it emits is followed by that line's text. */
  lemma WellFencedStep(line: string, example: bool, r: seq<DocLine>)
    requires WellFencedFrom(r, IsIndented(line))
    ensures WellFencedFrom(Step(line, example) + r, example)
  {
    var next := IsIndented(line);
    var t := [Text(Stripped(line))] + r;
    assert t[1..] == r;
    assert WellFencedFrom(t, next);
    if next == example {
      assert Step(line, example) + r == t;
    } else {
      var d := Step(line, example) + r;
      assert d == [if next then OpenFence else CloseFence] + t;
      assert d[1..] == t;
    }
  }

  lemma {:induction false} FencedWellFormedFrom(lines: seq<string>, example: bool)
    ensures WellFencedFrom(FencedFrom(lines, example), example)
  {
    if lines != [] {
      var next := IsIndented(lines[0]);
      FencedWellFormedFrom(lines[1..], next);
      WellFencedStep(lines[0], example, FencedFrom(lines[1..], next));
    }
  }

  /** The fences of the emitted comment are balanced, alternate and wrap
      maximal runs. */
  lemma FencedWellFormed(lines: seq<string>)
    ensures WellFencedFrom(Fenced(lines), false)
  {
    FencedWellFormedFrom(lines, false);
  }

  function Texts(ds: seq<DocLine>): seq<string> {
    if ds == [] then []
    else if ds[0].Text? then [ds[0].text] + Texts(ds[1..])
    else Texts(ds[1..])
  }

  /** One comment line's doc lines hold exactly one text: the line,
      stripped of its indentation. */
  lemma TextsStep(line: string, example: bool, r: seq<DocLine>)
    ensures Texts(Step(line, example) + r) == [Stripped(line)] + Texts(r)
  {
    var t := [Text(Stripped(line))] + r;
    assert t[1..] == r;
    if IsIndented(line) == example {
      assert Step(line, example) + r == t;
    } else {
      var d := Step(line, example) + r;
      assert d == [if example then CloseFence else OpenFence] + t;
      assert d[1..] == t;
    }
  }

  lemma {:induction false} FencedTextsFrom(lines: seq<string>, example: bool)
    ensures Texts(FencedFrom(lines, example)) == seq(|lines|, i requires 0 <= i < |lines| => Stripped(lines[i]))
  {
    if lines != [] {
      var next := IsIndented(lines[0]);
      FencedTextsFrom(lines[1..], next);
      TextsStep(lines[0], example, FencedFrom(lines[1..], next));
      var rest := seq(|lines[1..]|, i requires 0 <= i < |lines[1..]| => Stripped(lines[1..][i]));
      assert seq(|lines|, i requires 0 <= i < |lines| => Stripped(lines[i])) == [Stripped(lines[0])] + rest;
    }
  }

  /** The content lines of the emitted comment are the comment lines, in
      order, with the indentation of example lines removed. */
  lemma FencedTexts(lines: seq<string>)
    ensures Texts(Fenced(lines)) == seq(|lines|, i requires 0 <= i < |lines| => Stripped(lines[i]))
  {
    FencedTextsFrom(lines, false);
  }

  /** A comment without indented lines gets no fence at all. */
  lemma {:induction false} NoExamplesNoFences(lines: seq<string>)
    requires forall i :: 0 <= i < |lines| ==> !IsIndented(lines[i])
    ensures Fenced(lines) == seq(|lines|, i requires 0 <= i < |lines| => Text(lines[i]))
  {
    if lines != [] {
      NoExamplesNoFences(lines[1..]);
    }
  }

  /** An opening fence is emitted exactly when some comment line is indented. */
  lemma {:induction false} FenceOpensIffIndented(lines: seq<string>)
    ensures OpenFence in Fenced(lines) <==> exists i :: 0 <= i < |lines| && IsIndented(lines[i])
  {
    if lines != [] {
      if IsIndented(lines[0]) {
        assert Fenced(lines)[0] == OpenFence;
      } else {
        FenceOpensIffIndented(lines[1..]);
        assert Fenced(lines) == [Text(lines[0])] + Fenced(lines[1..]);
        if exists i :: 0 <= i < |lines| && IsIndented(lines[i]) {
          var i :| 0 <= i < |lines| && IsIndented(lines[i]);
          assert lines[1..][i - 1] == lines[i];
        }
      }
    }
  }

  lemma {:induction false} AllIndentedFrom(lines: seq<string>)
    requires forall i :: 0 <= i < |lines| ==> IsIndented(lines[i])
    ensures |FencedFrom(lines, true)| == |lines| + 1
    ensures forall i :: 0 <= i < |lines| ==> FencedFrom(lines, true)[i] == Text(Stripped(lines[i]))
    ensures FencedFrom(lines, true)[|lines|] == CloseFence
  {
    if lines != [] {
      AllIndentedFrom(lines[1..]);
      var r := FencedFrom(lines[1..], true);
      assert FencedFrom(lines, true) == [Text(Stripped(lines[0]))] + r;
      forall i | 1 <= i < |lines| ensures FencedFrom(lines, true)[i] == Text(Stripped(lines[i])) {
        assert r[i - 1] == Text(Stripped(lines[1..][i - 1]));
      }
    }
  }

  /** A comment whose first line is indented opens with a fence, after
      which the lines are emitted as inside an example. */
  lemma FencedIndentedHead(lines: seq<string>)
    requires |lines| > 0 && IsIndented(lines[0])
    ensures Fenced(lines) == [OpenFence] + FencedFrom(lines, true)
  {
    var head, r := lines[0], FencedFrom(lines[1..], true);
    var t := [Text(Stripped(head))];
    assert Fenced(lines) == ([OpenFence] + t) + r by {
      assert Step(head, false) == [OpenFence] + t;
    }
    assert FencedFrom(lines, true) == t + r by {
      assert Step(head, true) == t;
    }
    assert ([OpenFence] + t) + r == [OpenFence] + (t + r);
  }

  /** A comment made only of indented lines is one fenced block: an opening
      fence, every line stripped of its indentation, a closing fence. */
  lemma AllIndentedOneFence(lines: seq<string>)
    requires |lines| > 0
    requires forall i :: 0 <= i < |lines| ==> IsIndented(lines[i])
    ensures |Fenced(lines)| == |lines| + 2
    ensures Fenced(lines)[0] == OpenFence && Fenced(lines)[|lines| + 1] == CloseFence
    ensures forall i :: 0 <= i < |lines| ==> Fenced(lines)[i + 1] == Text(Stripped(lines[i]))
  {
    AllIndentedFrom(lines);
    FencedIndentedHead(lines);
  }

  /** An example run between two prose lines becomes one fenced block. */
  lemma FencingExample()
    ensures Fenced(["intro", "    a = 1", "    b = 2", "outro"])
         == [Text("intro"), OpenFence, Text("a = 1"), Text("b = 2"), CloseFence, Text("outro")]
  {
    var l := ["intro", "    a = 1", "    b = 2", "outro"];
    assert l[0][..4][0] == 'i' && l[3][..4][0] == 'o';
    assert l[1][..4] == Indent && l[2][..4] == Indent;
    assert l[1][4..] == "a = 1" && l[2][4..] == "b = 2";
    assert Step(l[0], false) == [Text("intro")];
    assert Step(l[1], false) == [OpenFence, Text("a = 1")];
    assert Step(l[2], true) == [Text("b = 2")];
    assert Step(l[3], true) == [CloseFence, Text("outro")];
    assert l[1..][1..][1..][1..] == [];
  }
}
