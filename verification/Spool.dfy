/**
  The spool: lines that are only ever appended, addressed by the byte offset at which they begin.
*/
module Spool {
  import opened Common
  import opened StructuralIngest

  /** A blank line, a record that fails validation, or a valid record of a captured source. */
  datatype Content = Blank | Invalid | Capture(source: Source)

  datatype RawLine = RawLine(length: nat, content: Content)

  /** A line has at least one byte, its end; a valid record names its source. */
  type Line = l: RawLine | l.length > 0 && (l.content.Capture? ==> l.content.source.id != "")
    witness RawLine(1, Blank)

  /** The byte offset at which line `k` begins. */
  function Offset(lines: seq<Line>, k: nat): nat
    requires k <= |lines|
  {
    if k == 0 then 0 else Offset(lines, k - 1) + lines[k - 1].length
  }

  lemma {:induction false} OffsetGrows(lines: seq<Line>, j: nat, k: nat)
    requires j < k <= |lines|
    ensures Offset(lines, j) < Offset(lines, k)
    decreases k
  {
    if j < k - 1 {
      OffsetGrows(lines, j, k - 1);
    }
  }

  lemma {:induction false} OffsetStable(lines: seq<Line>, longer: seq<Line>, k: nat)
    requires lines <= longer && k <= |lines|
    ensures Offset(longer, k) == Offset(lines, k)
  {
    if k > 0 {
      OffsetStable(lines, longer, k - 1);
    }
  }

  /** Reading a line at an offset: the line that begins there, if there is one. */
  function LineAt(lines: seq<Line>, offset: nat): (k: Option<nat>)
    ensures k.Some? ==> k.value < |lines|
  {
    Search(lines, offset, |lines|)
  }

  function Search(lines: seq<Line>, offset: nat, n: nat): (k: Option<nat>)
    requires n <= |lines|
    ensures k.Some? ==> k.value < n
  {
    if n == 0 then None
    else if Offset(lines, n - 1) == offset then Some(n - 1)
    else Search(lines, offset, n - 1)
  }

  lemma {:induction false} SearchFinds(lines: seq<Line>, k: nat, n: nat)
    requires k <= |lines| && n <= |lines|
    ensures Search(lines, Offset(lines, k), n) == if k < n then Some(k) else None
  {
    if n > 0 {
      SearchFinds(lines, k, n - 1);
      if k < n - 1 {
        OffsetGrows(lines, k, n - 1);
      } else if n - 1 < k {
        OffsetGrows(lines, n - 1, k);
      }
    }
  }

  // ---------- captured sources ----------

  /** The sources of all valid records. */
  function Captures(lines: seq<Line>): seq<Source> {
    if lines == [] then []
    else
      Captures(lines[..|lines| - 1])
      + if lines[|lines| - 1].content.Capture? then [lines[|lines| - 1].content.source] else []
  }

  lemma {:induction false} CapturesConcat(s: seq<Line>, t: seq<Line>)
    ensures Captures(s + t) == Captures(s) + Captures(t)
  {
    if t == [] {
      assert s + t == s;
    } else {
      CapturesConcat(s, t[..|t| - 1]);
      assert (s + t)[..|s + t| - 1] == s + t[..|t| - 1];
    }
  }

  function HoldsCapture(): Line -> bool {
    (line: Line) => line.content.Capture?
  }

  function SourceOf(): Line -> Source {
    (line: Line) => if line.content.Capture? then line.content.source else Source("", [])
  }

  /** The captured sources are those of the lines that hold one, in order. */
  lemma {:induction false} CapturesKept(lines: seq<Line>)
    ensures Captures(lines) == Kept(lines, HoldsCapture(), SourceOf())
  {
    if lines != [] {
      CapturesKept(lines[..|lines| - 1]);
    }
  }

  /** The sources of the lines from `j` up to `k`. */
  function Between(lines: seq<Line>, j: nat, k: nat): seq<Source>
    requires j <= k <= |lines|
  {
    Captures(lines[j..k])
  }

  lemma BetweenConcat(lines: seq<Line>, i: nat, j: nat, k: nat)
    requires i <= j <= k <= |lines|
    ensures Between(lines, i, k) == Between(lines, i, j) + Between(lines, j, k)
  {
    assert lines[i..k] == lines[i..j] + lines[j..k];
    CapturesConcat(lines[i..j], lines[j..k]);
  }

  lemma BetweenStable(lines: seq<Line>, longer: seq<Line>, j: nat, k: nat)
    requires lines <= longer && j <= k <= |lines|
    ensures Between(longer, j, k) == Between(lines, j, k)
  {
    assert longer[j..k] == lines[j..k];
  }

  lemma {:induction false} CapturesNamed(lines: seq<Line>)
    ensures Named(Captures(lines))
  {
    if lines != [] {
      CapturesNamed(lines[..|lines| - 1]);
    }
  }

  // ---------- selecting pending records ----------

  datatype Selection = Selection(sources: seq<Source>, next: nat)

  /** At most `max` records from line `k` on; an invalid record fails the whole selection. */
  function Selected(lines: seq<Line>, k: nat, max: nat): Result<Selection>
    requires k <= |lines|
    decreases |lines| - k
  {
    if max == 0 || k == |lines| then Ok(Selection([], k))
    else
      match lines[k].content
      case Blank => Selected(lines, k + 1, max)
      case Invalid => Err("invalid record")
      case Capture(source) =>
        var rest :- Selected(lines, k + 1, max - 1);
        Ok(Selection([source] + rest.sources, rest.next))
  }

  /** A selection is exactly the sources of the lines it consumes; it stops early only when it is full. */
  lemma {:induction false} SelectionIsExact(lines: seq<Line>, k: nat, max: nat)
    requires k <= |lines|
    ensures Selected(lines, k, max).Ok? ==>
      var sel := Selected(lines, k, max).value;
      && k <= sel.next <= |lines| && sel.sources == Between(lines, k, sel.next) && |sel.sources| <= max
      && (|sel.sources| < max ==> sel.next == |lines|)
      && (|sel.sources| == max > 0 ==> k < sel.next && lines[sel.next - 1].content.Capture?)
    decreases |lines| - k
  {
    if max > 0 && k < |lines| && !lines[k].content.Invalid? && Selected(lines, k, max).Ok? {
      var more := if lines[k].content.Blank? then max else max - 1;
      SelectionIsExact(lines, k + 1, more);
      var rest := Selected(lines, k + 1, more).value;
      BetweenConcat(lines, k, k + 1, rest.next);
      OneLine(lines, k);
    }
  }

  // ---------- an invalid record stops the selection ----------

  /** The captured lines from `k` up to `i`. */
  ghost function CapturedIn(lines: seq<Line>, k: nat, i: nat): set<nat>
    requires i <= |lines|
  {
    set j: nat | k <= j < i && lines[j].content.Capture?
  }

  /** Line `i` is invalid, and fewer than `max` records precede it. */
  ghost predicate Blocks(lines: seq<Line>, k: nat, max: nat, i: nat) {
    k <= i < |lines| && lines[i].content.Invalid? && |CapturedIn(lines, k, i)| < max
  }

  ghost predicate Blocked(lines: seq<Line>, k: nat, max: nat) {
    exists i: nat :: Blocks(lines, k, max, i)
  }

  ghost predicate NoneInvalid(lines: seq<Line>, from: nat, to: nat) {
    forall i :: from <= i < to && i < |lines| ==> !lines[i].content.Invalid?
  }

  lemma CapturedNext(lines: seq<Line>, k: nat, i: nat)
    requires k < i <= |lines|
    ensures |CapturedIn(lines, k, i)|
         == |CapturedIn(lines, k + 1, i)| + if lines[k].content.Capture? then 1 else 0
  {
    if lines[k].content.Capture? {
      assert CapturedIn(lines, k, i) == CapturedIn(lines, k + 1, i) + {k};
    } else {
      assert CapturedIn(lines, k, i) == CapturedIn(lines, k + 1, i);
    }
  }

  lemma BlockedNext(lines: seq<Line>, k: nat, max: nat)
    requires k < |lines| && !lines[k].content.Invalid? && max > 0
    ensures Blocked(lines, k, max)
       <==> Blocked(lines, k + 1, if lines[k].content.Capture? then max - 1 else max)
  {
    var next, more := k + 1, if lines[k].content.Capture? then max - 1 else max;
    forall i: nat
      ensures Blocks(lines, k, max, i) <==> Blocks(lines, next, more, i)
    {
      if k < i < |lines| {
        CapturedNext(lines, k, i);
      }
    }
    if i: nat :| Blocks(lines, k, max, i) {
      assert Blocks(lines, next, more, i);
    }
    if i: nat :| Blocks(lines, next, more, i) {
      assert Blocks(lines, k, max, i);
    }
  }

  /** A selection fails exactly if an invalid record comes before it is full, and takes no invalid line. */
  lemma {:induction false} SelectionFailsExactly(lines: seq<Line>, k: nat, max: nat)
    requires k <= |lines|
    ensures Selected(lines, k, max).Err? <==> Blocked(lines, k, max)
    ensures Selected(lines, k, max).Ok? ==> NoneInvalid(lines, k, Selected(lines, k, max).value.next)
    decreases |lines| - k
  {
    if max > 0 && k < |lines| {
      if lines[k].content.Invalid? {
        assert CapturedIn(lines, k, k) == {};
        assert Blocks(lines, k, max, k);
      } else {
        BlockedNext(lines, k, max);
        SelectionFailsExactly(lines, k + 1, if lines[k].content.Capture? then max - 1 else max);
      }
    }
  }

  lemma OneLine(lines: seq<Line>, k: nat)
    requires k < |lines|
    ensures Between(lines, k, k + 1)
         == if lines[k].content.Capture? then [lines[k].content.source] else []
  {
    var one := lines[k..k + 1];
    assert one == [lines[k]] && one[..0] == [];
    assert Captures(one) == Captures(one[..0]) + if lines[k].content.Capture? then [lines[k].content.source] else [];
  }

  datatype PendingRecords = PendingRecords(sources: seq<Source>, offset: nat)

  /** Reads lines from the cursor until enough records are selected or the spool ends. */
  method LoadPending(lines: seq<Line>, cursor: nat, maxRecords: nat, ghost k: nat) returns (r: Result<PendingRecords>)
    requires k <= |lines| && cursor == Offset(lines, k)
    ensures maxRecords == 0 ==> r == Err("max_records must be > 0")
    ensures maxRecords > 0 && Selected(lines, k, maxRecords).Err? ==> r == Err("invalid record")
    ensures r.Err? <==> maxRecords == 0 || Blocked(lines, k, maxRecords)
    ensures maxRecords > 0 && Selected(lines, k, maxRecords).Ok? ==>
      var sel := Selected(lines, k, maxRecords).value;
      && k <= sel.next <= |lines| && NoneInvalid(lines, k, sel.next)
      && r == Ok(PendingRecords(sel.sources, Offset(lines, sel.next)))
  {
    if maxRecords == 0 {
      return Err("max_records must be > 0");
    }
    var selected: seq<Source>, committed := [], cursor;
    ghost var at := k;
    ghost var whole := Selected(lines, k, maxRecords);
    SelectionIsExact(lines, k, maxRecords);
    SelectionFailsExactly(lines, k, maxRecords);
    WithNone(whole);
    while |selected| < maxRecords
      invariant at <= |lines| && committed == Offset(lines, at) && |selected| <= maxRecords
      invariant whole == With(selected, Selected(lines, at, maxRecords - |selected|))
      decreases |lines| - at
    {
      SearchFinds(lines, at, |lines|);
      var found := LineAt(lines, committed);
      if found.None? {
        break;
      }
      var line := lines[found.value];
      match line.content {
        case Blank =>
        case Invalid =>
          return Err("invalid record");
        case Capture(source) =>
          WithOne(selected, source, Selected(lines, at + 1, maxRecords - |selected| - 1));
          selected := selected + [source];
      }
      committed := committed + line.length;
      at := at + 1;
    }
    assert selected + [] == selected;
    r := Ok(PendingRecords(selected, committed));
  }

  /** A selection that goes on after the sources `done`. */
  ghost function With(done: seq<Source>, r: Result<Selection>): Result<Selection> {
    match r
    case Err(e) => Err(e)
    case Ok(sel) => Ok(Selection(done + sel.sources, sel.next))
  }

  lemma WithNone(r: Result<Selection>)
    ensures With([], r) == r
  {
    if r.Ok? {
      assert [] + r.value.sources == r.value.sources;
    }
  }

  lemma WithOne(done: seq<Source>, source: Source, rest: Result<Selection>)
    ensures rest.Ok? ==>
      With(done, Ok(Selection([source] + rest.value.sources, rest.value.next))) == With(done + [source], rest)
  {
    if rest.Ok? {
      assert done + ([source] + rest.value.sources) == done + [source] + rest.value.sources;
    }
  }
}
