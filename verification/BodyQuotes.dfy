/** Quoting: a body falls into runs of whole lines of one quotation level. */
module BodyQuotes {
  import opened PostBody
  import opened BodyLeaves
  import opened BodyParser
  import opened BodyText

  /** Every line of a text has a quotation level. */
  predicate LinesAt(env: Env, text: string, level: nat)
    decreases |text|
  {
    text == [] || (LevelOf(env, text) == level && LinesAt(env, text[NextLine(text, 0)..], level))
  }

  /** A run of lines that is not empty. */
  predicate IsRun(env: Env, s: Segment) {
    s.text != [] && LinesAt(env, s.text, s.level)
  }

  /** Runs of lines, neighbours at different levels: so no run could be longer. */
  ghost predicate MaximalRuns(env: Env, segments: seq<Segment>) {
    && (forall k | 0 <= k < |segments| :: IsRun(env, segments[k]))
    && (forall k | 0 < k < |segments| :: segments[k - 1].level != segments[k].level)
  }

  // ----- the level of a line depends on nothing after it -----

  lemma {:induction false} PositionWithin(a: string, b: string, c: char)
    ensures Position(a, c) < |a| ==> Position(a + b, c) == Position(a, c)
    ensures Position(a, c) == |a| ==> Position(a + b, c) == |a| + Position(b, c)
  {
    if a == [] {
      assert a + b == b;
    } else {
      assert (a + b)[0] == a[0] && (a + b)[1..] == a[1..] + b;
      PositionWithin(a[1..], b, c);
    }
  }

  lemma {:induction false} RunWithin(a: string, b: string, c: char)
    requires Run(a, c) < |a|
    ensures Run(a + b, c) == Run(a, c)
  {
    assert (a + b)[0] == a[0] && (a + b)[1..] == a[1..] + b;
    if a[0] == c {
      RunWithin(a[1..], b, c);
    }
  }

  lemma RunStops(a: string, k: nat)
    requires k < |a| && a[k] == '\n'
    ensures Run(a, '>') < |a|
  {
  }

  lemma FirstWord(a: string, b: string)
    requires Position(a, '\n') < |a|
    ensures var i := Position(a, ' '); var n := Position(a, '\n');
            var j := Position(a + b, ' '); var m := Position(a + b, '\n');
            (a + b)[..if j < m then j else m] == a[..if i < n then i else n]
  {
    PositionWithin(a, b, '\n');
    PositionWithin(a, b, ' ');
  }

  lemma LevelWithin(env: Env, a: string, b: string)
    requires Position(a, '\n') < |a|
    ensures LevelOf(env, a + b) == LevelOf(env, a)
  {
    hide LinkOf;
    FirstWord(a, b);
    RunStops(a, Position(a, '\n'));
    RunWithin(a, b, '>');
    assert (a + b)[0] == a[0];
  }

  // ----- growing a run by a line -----

  lemma {:induction false} MoreLines(env: Env, a: string, b: string, level: nat)
    requires LinesAt(env, a, level) && LinesAt(env, b, level)
    requires a != [] ==> a[|a| - 1] == '\n'
    ensures LinesAt(env, a + b, level)
    decreases |a|
  {
    hide LevelOf, LinesAt, NextLine;
    if a == [] {
      assert a + b == b;
    } else {
      LineOf(a, b);
      LevelWithin(env, a, b);
      FirstLine(env, a, level);
      FirstLine(env, a + b, level);
      var n := NextLine(a, 0);
      if n < |a| {
        assert a[n..][|a[n..]| - 1] == a[|a| - 1];
      }
      MoreLines(env, a[n..], b, level);
      assert (a + b)[n..] == a[n..] + b;
    }
  }

  lemma FirstLine(env: Env, text: string, level: nat)
    requires text != []
    ensures LinesAt(env, text, level)
            <==> LevelOf(env, text) == level && LinesAt(env, text[NextLine(text, 0)..], level)
  {
    hide LevelOf;
  }

  lemma LineOf(a: string, b: string)
    requires a != [] && a[|a| - 1] == '\n'
    ensures Position(a, '\n') < |a| && NextLine(a + b, 0) == NextLine(a, 0)
  {
    PositionWithin(a, b, '\n');
    assert a[0..] == a && (a + b)[0..] == a + b;
  }

  lemma OneLine(env: Env, body: string, i: nat)
    requires i < |body|
    ensures var line := body[i..NextLine(body, i)]; line != [] && LinesAt(env, line, LevelOf(env, body[i..]))
  {
    hide LevelOf;
    var next := NextLine(body, i);
    var line := body[i..next];
    var n := Position(body[i..], '\n');
    assert line + body[next..] == body[i..] && line[0..] == line;
    PositionWithin(line, body[next..], '\n');
    if next < |body| || n < |body[i..]| {
      assert body[i..][n] == '\n' && line[n] == '\n';
      LevelWithin(env, line, body[next..]);
    } else {
      assert line == body[i..];
    }
    assert NextLine(line, 0) == |line|;
  }

  // ----- the segments -----

  lemma GrownRun(env: Env, body: string, start: nat, i: nat, level: nat)
    requires start <= i < |body| && LinesAt(env, body[start..i], level) && LevelOf(env, body[i..]) == level
    requires start < i ==> body[i - 1] == '\n'
    ensures LinesAt(env, body[start..NextLine(body, i)], level)
  {
    hide LevelOf, LinesAt;
    var next := NextLine(body, i);
    OneLine(env, body, i);
    MoreLines(env, body[start..i], body[i..next], level);
    assert body[start..i] + body[i..next] == body[start..next];
  }

  lemma RunFirst(env: Env, s: Segment, rest: seq<Segment>)
    requires IsRun(env, s) && MaximalRuns(env, rest) && (rest != [] ==> rest[0].level != s.level)
    ensures MaximalRuns(env, [s] + rest)
  {
    hide IsRun;
  }

  lemma {:induction false} RunsFrom(env: Env, body: string, start: nat, i: nat, level: nat)
    requires start <= i <= |body| && LinesAt(env, body[start..i], level)
    requires 0 < i < |body| ==> body[i - 1] == '\n'
    ensures var r := SegmentsFrom(env, body, start, i, level);
            MaximalRuns(env, r) && (start < i ==> r != [] && r[0].level == level)
    decreases |body| - i
  {
    hide LevelOf, LinesAt, MaximalRuns;
    NoRuns(env);
    if i == |body| {
      if start != i {
        RunFirst(env, Segment(level, body[start..i]), []);
        assert [Segment(level, body[start..i])] + [] == [Segment(level, body[start..i])];
      }
    } else {
      var line := LevelOf(env, body[i..]);
      var next := NextLine(body, i);
      LineEnds(body, i);
      if line == level {
        GrownRun(env, body, start, i, level);
        RunsFrom(env, body, start, next, level);
      } else {
        OneLine(env, body, i);
        RunsFrom(env, body, i, next, line);
        if start != i {
          RunFirst(env, Segment(level, body[start..i]), SegmentsFrom(env, body, i, next, line));
        } else {
          assert [] + SegmentsFrom(env, body, i, next, line) == SegmentsFrom(env, body, i, next, line);
        }
      }
    }
  }

  lemma NoRuns(env: Env)
    ensures MaximalRuns(env, [])
  {
  }

  /** The segments of a body are its maximal runs of lines of one level, in order. */
  lemma SegmentsExact(env: Env, body: string)
    ensures MaximalRuns(env, Segments(env, body)) && JoinTexts(Segments(env, body)) == body
  {
    hide LevelOf, MaximalRuns;
    assert body[0..0] == [] && body[0..] == body;
    RunsFrom(env, body, 0, 0, 0);
    SegmentsJoin(env, body, 0, 0, 0);
  }
}
