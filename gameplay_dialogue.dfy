/** Dialogue graphs: traversal by choices guarded by conditions on string
    variables, and the compiler from banter scripts to dialogue nodes. */
module Dialogue {
  import opened Base
  import opened Text

  datatype Cond =
    | Eq(key: string, val: string)
    | Ne(key: string, val: string)
    | Has(key: string)

  datatype Line = Line(speaker: string, text: string, setVars: seq<(string, string)>)

  datatype Choice = Choice(text: string, goTo: string, require: seq<Cond>)

  datatype Node = Node(id: string, line: Option<Line>, choices: seq<Choice>, end: bool)

  datatype Dialogue = Dialogue(id: string, start: string, nodes: seq<Node>)

  type Vars = map<string, string>

  /** `eval`: `Eq` on a missing key is false, `Ne` on a missing key is true,
      `Has` is membership. */
  function Eval(c: Cond, vars: Vars): bool {
    match c
    case Eq(key, val) => key in vars && vars[key] == val
    case Ne(key, val) => key !in vars || vars[key] != val
    case Has(key) => key in vars
  }

  /** `Ne` is exactly the negation of `Eq`, missing keys included, and an
      `Eq` that holds implies `Has`. */
  lemma EvalNeIsNotEq(key: string, val: string, vars: Vars)
    ensures Eval(Ne(key, val), vars) == !Eval(Eq(key, val), vars)
    ensures Eval(Eq(key, val), vars) ==> Eval(Has(key), vars)
  {
  }

  predicate AllHold(conds: seq<Cond>, vars: Vars) {
    forall i :: 0 <= i < |conds| ==> Eval(conds[i], vars)
  }

  /** The id-to-index map built from the nodes in order; of nodes sharing an
      id, the last one wins. */
  function IndexMap(nodes: seq<Node>): (m: map<string, nat>)
    ensures IndexOf(nodes, m)
  {
    if nodes == [] then map[]
    else
      var init := nodes[..|nodes| - 1];
      IndexExtend(init, nodes[|nodes| - 1], IndexMap(init));
      assert init + [nodes[|nodes| - 1]] == nodes;
      IndexMap(init)[nodes[|nodes| - 1].id := |nodes| - 1]
  }

  /** `m` indexes `nodes`: every id maps to the last node carrying it. */
  predicate IndexOf(nodes: seq<Node>, m: map<string, nat>) {
    (forall k :: k in m ==> m[k] < |nodes| && nodes[m[k]].id == k)
    && (forall i :: 0 <= i < |nodes| ==> nodes[i].id in m)
    && (forall k :: k in m ==> forall j :: m[k] < j < |nodes| ==> nodes[j].id != k)
  }

  lemma IndexExtend(nodes: seq<Node>, last: Node, m: map<string, nat>)
    requires IndexOf(nodes, m)
    ensures IndexOf(nodes + [last], m[last.id := |nodes|])
  {
    var all := nodes + [last];
    var m' := m[last.id := |nodes|];
    forall k | k in m'
      ensures m'[k] < |all| && all[m'[k]].id == k
    {
      if k != last.id {
        assert all[m[k]] == nodes[m[k]];
      }
    }
    forall i | 0 <= i < |all|
      ensures all[i].id in m'
    {
      if i < |nodes| {
        assert all[i] == nodes[i];
      }
    }
    forall k | k in m'
      ensures forall j :: m'[k] < j < |all| ==> all[j].id != k
    {
      if k != last.id {
        forall j | m'[k] < j < |all|
          ensures all[j].id != k
        {
          if j < |nodes| {
            assert all[j] == nodes[j];
          }
        }
      }
    }
  }

  /** The variables after applying assignments in order (later ones win). */
  function ApplyVars(vars: Vars, kvs: seq<(string, string)>): (r: Vars)
    ensures r.Keys == vars.Keys + set i | 0 <= i < |kvs| :: kvs[i].0
  {
    if kvs == [] then vars
    else ApplyVars(vars, kvs[..|kvs| - 1])[kvs[|kvs| - 1].0 := kvs[|kvs| - 1].1]
  }

  /** A variable no assignment touches keeps its value; otherwise it takes
      the value of the last assignment to it. */
  lemma {:induction false} ApplyVarsLookup(vars: Vars, kvs: seq<(string, string)>, k: string)
    requires k in ApplyVars(vars, kvs)
    ensures (forall i :: 0 <= i < |kvs| ==> kvs[i].0 != k) ==> ApplyVars(vars, kvs)[k] == vars[k]
    ensures forall i :: (0 <= i < |kvs| && kvs[i].0 == k && (forall j :: i < j < |kvs| ==> kvs[j].0 != k)
                         ==> ApplyVars(vars, kvs)[k] == kvs[i].1)
  {
    if kvs != [] {
      var n := |kvs| - 1;
      var init := kvs[..n];
      if kvs[n].0 != k {
        assert k in ApplyVars(vars, init);
        ApplyVarsLookup(vars, init, k);
        assert ApplyVars(vars, kvs)[k] == ApplyVars(vars, init)[k];
        forall i | 0 <= i < |kvs| && kvs[i].0 == k && (forall j :: i < j < |kvs| ==> kvs[j].0 != k)
          ensures ApplyVars(vars, kvs)[k] == kvs[i].1
        {
          assert i < n && init[i] == kvs[i];
          assert forall j :: i < j < |init| ==> init[j].0 != k;
        }
        if forall i :: 0 <= i < |kvs| ==> kvs[i].0 != k {
          assert forall i :: 0 <= i < |init| ==> init[i].0 != k;
        }
      } else {
        forall i | 0 <= i < |kvs| && kvs[i].0 == k && (forall j :: i < j < |kvs| ==> kvs[j].0 != k)
          ensures ApplyVars(vars, kvs)[k] == kvs[i].1
        {
          assert i == n;
        }
      }
    }
  }

  /** The traversal state: the current node, the id index and the variables. */
  class DialogueState {
    var idx: nat
    var index: map<string, nat>
    var vars: Vars

    /** The state fits dialogue `d`: it points at one of its nodes, and so
        does every entry of the index. */
    predicate Fits(d: Dialogue)
      reads this
    {
      idx < |d.nodes| && forall k :: k in index ==> index[k] < |d.nodes|
    }

    /** `DialogueState::new`: starts at the start node, which must exist. */
    constructor (d: Dialogue)
      requires d.start in IndexMap(d.nodes)
      ensures Fits(d)
      ensures index == IndexMap(d.nodes) && idx == index[d.start] && vars == map[]
      ensures d.nodes[idx].id == d.start
    {
      index := IndexMap(d.nodes);
      idx := IndexMap(d.nodes)[d.start];
      vars := map[];
    }

    /** `current`. */
    function Current(d: Dialogue): (n: Node)
      reads this
      requires idx < |d.nodes|
      ensures n in d.nodes
    {
      d.nodes[idx]
    }

    /** `choose`: follows choice `c` of the current node when it exists, all
        its requirements hold and its target is known; the target line's
        assignments are then applied in order. Otherwise nothing changes. */
    method Choose(d: Dialogue, c: nat) returns (ok: bool)
      requires Fits(d)
      modifies this
      ensures Fits(d) && index == old(index)
      ensures var n := d.nodes[old(idx)];
        ok <==> c < |n.choices| && AllHold(n.choices[c].require, old(vars)) && n.choices[c].goTo in index
      ensures !ok ==> idx == old(idx) && vars == old(vars)
      ensures ok ==> var target := index[d.nodes[old(idx)].choices[c].goTo];
        idx == target
        && vars == (if d.nodes[target].line.Some? then ApplyVars(old(vars), d.nodes[target].line.value.setVars)
                    else old(vars))
    {
      var n := d.nodes[idx];
      if c >= |n.choices| {
        return false;
      }
      var choice := n.choices[c];
      var j := 0;
      while j < |choice.require|
        invariant j <= |choice.require|
        invariant forall i :: 0 <= i < j ==> Eval(choice.require[i], vars)
      {
        if !Eval(choice.require[j], vars) {
          return false;
        }
        j := j + 1;
      }
      if choice.goTo !in index {
        return false;
      }
      var ni := index[choice.goTo];
      idx := ni;
      if d.nodes[ni].line.Some? {
        var kvs := d.nodes[ni].line.value.setVars;
        var k := 0;
        while k < |kvs|
          invariant k <= |kvs| && idx == ni && index == old(index)
          invariant vars == ApplyVars(old(vars), kvs[..k])
        {
          assert kvs[..k + 1][..k] == kvs[..k];
          vars := vars[kvs[k].0 := kvs[k].1];
          k := k + 1;
        }
        assert kvs[..k] == kvs;
      }
      ok := true;
    }
  }

  // ----- the banter compiler -----

  function NodeId(i: nat): string {
    "n" + NatToString(i)
  }

  /** A `[` line: the speaker is what precedes the first `]`, the text what
      follows it, trimmed; without `]` the speaker is "Unknown" and the text
      the whole line. */
  function SpeakerLine(line: string): (l: Line)
    requires StartsWith(line, "[")
    ensures ']' !in line[1..] ==> l == Line("Unknown", line, [])
    ensures ']' in line[1..] ==> var e := |l.speaker|;
      FirstAt(line[1..], ']', e) && l == Line(line[1..][..e], Trim(line[1..][e + 1..]), [])
  {
    var rest := line[1..];
    FindChar(rest, ']');
    match Find(rest, [']'])
    case Some(e) => Line(rest[..e], Trim(rest[e + 1..]), [])
    case None => Line("Unknown", line, [])
  }

  /** The requirement a `?` line's condition part adds: an equality when it
      contains `==`, otherwise an inequality when it contains `!=`, otherwise
      none. */
  function ParseCond(cond: string): (r: seq<Cond>)
    ensures Contains(cond, "==") ==>
      r == [Eq(Trim(SplitTwo(cond, "==").0), Trim(SplitTwo(cond, "==").1))]
    ensures !Contains(cond, "==") && Contains(cond, "!=") ==>
      r == [Ne(Trim(SplitTwo(cond, "!=").0), Trim(SplitTwo(cond, "!=").1))]
    ensures !Contains(cond, "==") && !Contains(cond, "!=") ==> r == []
  {
    if Contains(cond, "==") then
      var z := SplitTwo(cond, "==");
      [Eq(Trim(z.0), Trim(z.1))]
    else if Contains(cond, "!=") then
      var z := SplitTwo(cond, "!=");
      [Ne(Trim(z.0), Trim(z.1))]
    else []
  }

  /** The choice target: after `goto`, trimmed; "n0" without it. */
  function GotoTarget(part: string): (t: string)
    ensures StartsWith(part, "goto") ==> t == Trim(part[4..])
    ensures !StartsWith(part, "goto") ==> t == "n0"
  {
    match StripPrefix(part, "goto")
    case Some(s) => Trim(s)
    case None => "n0"
  }

  /** Earlier nodes keep their id, whether they carry a line, and their end
      flag. */
  predicate Keeps(nodes: seq<Node>, r: seq<Node>) {
    |r| >= |nodes|
    && forall i :: 0 <= i < |nodes| ==>
         r[i].id == nodes[i].id && r[i].line.Some? == nodes[i].line.Some? && r[i].end == nodes[i].end
  }

  /** The pair is appended to the last node's assignments; nothing else
      changes. */
  function WithLastSetVar(nodes: seq<Node>, kv: (string, string)): (r: seq<Node>)
    requires nodes != [] && nodes[|nodes| - 1].line.Some?
    ensures |r| == |nodes| && Keeps(nodes, r) && r[..|r| - 1] == nodes[..|nodes| - 1]
    ensures var last, l := nodes[|nodes| - 1], nodes[|nodes| - 1].line.value;
      var last', l' := r[|r| - 1], r[|r| - 1].line.value;
      last'.id == last.id && last'.choices == last.choices && last'.end == last.end
      && l'.speaker == l.speaker && l'.text == l.text && l'.setVars == l.setVars + [kv]
  {
    var last := nodes[|nodes| - 1];
    var l := last.line.value;
    nodes[..|nodes| - 1] + [last.(line := Some(l.(setVars := l.setVars + [kv])))]
  }

  /** The choice is appended to the last node's choices; nothing else
      changes. */
  function WithLastChoice(nodes: seq<Node>, c: Choice): (r: seq<Node>)
    requires nodes != []
    ensures |r| == |nodes| && Keeps(nodes, r) && r[..|r| - 1] == nodes[..|nodes| - 1]
    ensures var last, last' := nodes[|nodes| - 1], r[|r| - 1];
      last'.id == last.id && last'.line == last.line && last'.end == last.end
      && last'.choices == last.choices + [c]
  {
    var last := nodes[|nodes| - 1];
    nodes[..|nodes| - 1] + [last.(choices := last.choices + [c])]
  }

  /** A `->k=v` line (prefix removed): appends the trimmed pair to the last
      node's assignments; ignored without `=` or without a node. */
  function ArrowLine(nodes: seq<Node>, rest: string): (r: seq<Node>)
    ensures |r| == |nodes| && Keeps(nodes, r)
    ensures '=' !in Trim(rest) || nodes == [] || nodes[|nodes| - 1].line.None? ==> r == nodes
    ensures forall eq :: FirstAt(Trim(rest), '=', eq) && nodes != [] && nodes[|nodes| - 1].line.Some? ==>
      r == WithLastSetVar(nodes, (Trim(Trim(rest)[..eq]), Trim(Trim(rest)[eq + 1..])))
  {
    var kv := Trim(rest);
    FindChar(kv, '=');
    match Find(kv, ['='])
    case None => nodes
    case Some(eq) =>
      assert forall eq' :: FirstAt(kv, '=', eq') ==> eq' == eq by {
        forall eq' | FirstAt(kv, '=', eq') ensures eq' == eq { FirstAtUnique(kv, '=', eq, eq'); }
      }
      if nodes != [] && nodes[|nodes| - 1].line.Some? then
        WithLastSetVar(nodes, (Trim(kv[..eq]), Trim(kv[eq + 1..])))
      else nodes
  }

  /** A `? cond : goto id` line (prefix removed): adds a "Continue" choice
      to the last node, only when splitting on `:` gives exactly two parts. */
  function QueryLine(nodes: seq<Node>, rest: string): (r: seq<Node>)
    ensures |r| == |nodes| && Keeps(nodes, r)
    ensures (forall i :: !OnlyAt(rest, ':', i)) || nodes == [] ==> r == nodes
    ensures forall i :: OnlyAt(rest, ':', i) && nodes != [] ==>
      r == WithLastChoice(nodes, Choice("Continue", GotoTarget(Trim(rest[i + 1..])), ParseCond(Trim(rest[..i]))))
  {
    SplitOnce(rest, ':');
    var parts := Split(rest, ':');
    if |parts| == 2 && nodes != [] then
      WithLastChoice(nodes, Choice("Continue", GotoTarget(Trim(parts[1])), ParseCond(Trim(parts[0]))))
    else nodes
  }

  predicate IsSpeakerLine(raw: string) {
    StartsWith(Trim(raw), "[")
  }

  /** One script line's effect on the nodes compiled so far; blank lines and
      lines of no known form change nothing. */
  function CompileLine(nodes: seq<Node>, raw: string): (r: seq<Node>)
    ensures |r| == |nodes| + (if IsSpeakerLine(raw) then 1 else 0)
    ensures Keeps(nodes, r)
    ensures IsSpeakerLine(raw) ==> r[|nodes|] == Node(NodeId(|nodes|), Some(SpeakerLine(Trim(raw))), [], false)
  {
    var line := Trim(raw);
    if line == [] then nodes
    else if StartsWith(line, "[") then
      nodes + [Node(NodeId(|nodes|), Some(SpeakerLine(line)), [], false)]
    else if StartsWith(line, "->") then ArrowLine(nodes, line[2..])
    else if StartsWith(line, "?") then QueryLine(nodes, line[1..])
    else nodes
  }

  /** A `->` line is an assignment, a `?` line a choice, and a line of no
      known form, blank ones included, leaves the nodes as they are. */
  lemma CompileLineCases(nodes: seq<Node>, raw: string)
    ensures StartsWith(Trim(raw), "->") ==> CompileLine(nodes, raw) == ArrowLine(nodes, Trim(raw)[2..])
    ensures StartsWith(Trim(raw), "?") ==> CompileLine(nodes, raw) == QueryLine(nodes, Trim(raw)[1..])
    ensures !IsSpeakerLine(raw) && !StartsWith(Trim(raw), "->") && !StartsWith(Trim(raw), "?") ==>
      CompileLine(nodes, raw) == nodes
  {
    var line := Trim(raw);
    if line == [] {
    } else if StartsWith(line, "[") {
      assert line[0] == '[' && !StartsWith(line, "->") && !StartsWith(line, "?");
    } else if StartsWith(line, "->") {
      assert line[0] == '-' && !StartsWith(line, "?");
      assert CompileLine(nodes, raw) == ArrowLine(nodes, line[2..]);
    } else if StartsWith(line, "?") {
      assert CompileLine(nodes, raw) == QueryLine(nodes, line[1..]);
    }
  }

  /** The nodes compiled from the script lines, in order. */
  function CompileLines(lines: seq<string>): seq<Node> {
    if lines == [] then []
    else CompileLine(CompileLines(lines[..|lines| - 1]), lines[|lines| - 1])
  }

  lemma CompileLinesStep(lines: seq<string>, k: nat)
    requires k < |lines|
    ensures CompileLines(lines[..k + 1]) == CompileLine(CompileLines(lines[..k]), lines[k])
  {
    assert lines[..k + 1][..k] == lines[..k];
  }

  /** The number of `[` lines. */
  function SpeakerCount(lines: seq<string>): nat {
    if lines == [] then 0
    else SpeakerCount(lines[..|lines| - 1]) + (if IsSpeakerLine(lines[|lines| - 1]) then 1 else 0)
  }

  /** Nodes numbered n0, n1, ... in order, each carrying a line and none
      marked as the end. */
  predicate Numbered(nodes: seq<Node>) {
    forall i :: 0 <= i < |nodes| ==> nodes[i].id == NodeId(i) && nodes[i].line.Some? && !nodes[i].end
  }

  lemma NumberedStep(prev: seq<Node>, raw: string)
    requires Numbered(prev)
    ensures Numbered(CompileLine(prev, raw))
  {
    var r := CompileLine(prev, raw);
    forall i | 0 <= i < |r|
      ensures r[i].id == NodeId(i) && r[i].line.Some? && !r[i].end
    {
      if i < |prev| {
        assert r[i].id == prev[i].id && r[i].line.Some? == prev[i].line.Some? && r[i].end == prev[i].end;
      }
    }
  }

  /** One node per `[` line, with ids n0, n1, ... in order, each carrying a
      line and none yet marked as the end. */
  lemma {:induction false} CompileLinesShape(lines: seq<string>)
    ensures |CompileLines(lines)| == SpeakerCount(lines)
    ensures Numbered(CompileLines(lines))
  {
    if lines != [] {
      var n := |lines| - 1;
      CompileLinesShape(lines[..n]);
      var prev := CompileLines(lines[..n]);
      assert CompileLines(lines) == CompileLine(prev, lines[n]);
      assert SpeakerCount(lines) == SpeakerCount(lines[..n]) + (if IsSpeakerLine(lines[n]) then 1 else 0);
      NumberedStep(prev, lines[n]);
    }
  }

  /** A choice the compiler makes: it reads "Continue" and requires at most
      one condition, an equality or an inequality. */
  predicate ContinueChoice(c: Choice) {
    c.text == "Continue" && |c.require| <= 1 && (|c.require| == 1 ==> !c.require[0].Has?)
  }

  predicate ContinueNode(n: Node) {
    forall j :: 0 <= j < |n.choices| ==> ContinueChoice(n.choices[j])
  }

  predicate ContinueChoices(nodes: seq<Node>) {
    forall i :: 0 <= i < |nodes| ==> ContinueNode(nodes[i])
  }

  /** Replacing the last node by one whose choices are all compiler choices
      keeps every choice a compiler choice. */
  lemma ContinueLast(prev: seq<Node>, r: seq<Node>)
    requires ContinueChoices(prev) && prev != [] && |r| == |prev|
    requires r[..|r| - 1] == prev[..|prev| - 1] && ContinueNode(r[|r| - 1])
    ensures ContinueChoices(r)
  {
    forall i | 0 <= i < |r| - 1
      ensures ContinueNode(r[i])
    {
      assert r[i] == r[..|r| - 1][i] == prev[..|prev| - 1][i] == prev[i];
    }
  }

  /** A parsed condition is at most one equality or inequality. */
  lemma ParseCondShape(cond: string)
    ensures |ParseCond(cond)| <= 1 && (|ParseCond(cond)| == 1 ==> !ParseCond(cond)[0].Has?)
  {
  }

  lemma ArrowKeepsChoices(prev: seq<Node>, rest: string)
    requires ContinueChoices(prev)
    ensures ContinueChoices(ArrowLine(prev, rest))
  {
    var r := ArrowLine(prev, rest);
    if r != prev {
      ContinueLast(prev, r);
    }
  }

  /** Appending a compiler choice to the last node keeps every choice a
      compiler choice. */
  lemma AppendContinue(prev: seq<Node>, c: Choice)
    requires ContinueChoices(prev) && prev != [] && ContinueChoice(c)
    ensures ContinueChoices(WithLastChoice(prev, c))
  {
    var r := WithLastChoice(prev, c);
    var prior := prev[|prev| - 1].choices;
    assert ContinueNode(prev[|prev| - 1]);
    var cs := r[|r| - 1].choices;
    forall j | 0 <= j < |cs|
      ensures ContinueChoice(cs[j])
    {
      if j < |prior| {
        assert cs[j] == prior[j];
      }
    }
    ContinueLast(prev, r);
  }

  lemma QueryKeepsChoices(prev: seq<Node>, rest: string)
    requires ContinueChoices(prev)
    ensures ContinueChoices(QueryLine(prev, rest))
  {
    SplitOnce(rest, ':');
    if |Split(rest, ':')| == 2 && prev != [] {
      var i :| OnlyAt(rest, ':', i);
      var c := Choice("Continue", GotoTarget(Trim(rest[i + 1..])), ParseCond(Trim(rest[..i])));
      ParseCondShape(Trim(rest[..i]));
      AppendContinue(prev, c);
    }
  }

  lemma ContinueChoicesStep(prev: seq<Node>, raw: string)
    requires ContinueChoices(prev)
    ensures ContinueChoices(CompileLine(prev, raw))
  {
    CompileLineCases(prev, raw);
    var line := Trim(raw);
    if StartsWith(line, "[") {
      var r := CompileLine(prev, raw);
      assert forall i :: 0 <= i < |prev| ==> r[i] == prev[i];
    } else if StartsWith(line, "->") {
      ArrowKeepsChoices(prev, line[2..]);
    } else if StartsWith(line, "?") {
      QueryKeepsChoices(prev, line[1..]);
    }
  }

  /** The `?` lines of a script compile to "Continue" choices, each guarded
      by at most one equality or inequality, and marking the end keeps them. */
  lemma {:induction false} CompiledChoices(lines: seq<string>)
    ensures ContinueChoices(CompileLines(lines))
    ensures ContinueChoices(MarkEnd(CompileLines(lines)))
  {
    if lines != [] {
      var n := |lines| - 1;
      CompiledChoices(lines[..n]);
      ContinueChoicesStep(CompileLines(lines[..n]), lines[n]);
    }
    var c := CompileLines(lines);
    if c != [] {
      ContinueLast(c, MarkEnd(c));
    }
  }

  /** The last node ends the dialogue. */
  function MarkEnd(nodes: seq<Node>): (r: seq<Node>)
    ensures |r| == |nodes|
    ensures forall i :: 0 <= i < |nodes| - 1 ==> r[i] == nodes[i]
    ensures nodes != [] ==> var last, last' := nodes[|nodes| - 1], r[|r| - 1];
      last'.end && last'.id == last.id && last'.line == last.line && last'.choices == last.choices
  {
    if nodes == [] then [] else nodes[..|nodes| - 1] + [nodes[|nodes| - 1].(end := true)]
  }

  /** Compiles one line of the script; `count` is the number of nodes
      pushed so far. */
  method CompileStep(nodes: seq<Node>, count: nat, raw: string) returns (nodes': seq<Node>, count': nat)
    requires count == |nodes|
    ensures nodes' == CompileLine(nodes, raw) && count' == |nodes'|
  {
    nodes', count' := nodes, count;
    var line := Trim(raw);
    if line == [] {
      return;
    }
    if StartsWith(line, "[") {
      nodes' := nodes' + [Node(NodeId(count), Some(SpeakerLine(line)), [], false)];
      count' := count + 1;
    } else if StartsWith(line, "->") {
      nodes' := ArrowLine(nodes', line[2..]);
    } else if StartsWith(line, "?") {
      nodes' := QueryLine(nodes', line[1..]);
    }
  }

  /** `compile_banter_to_nodes`: one pass over the script's lines; then the
      last node is marked as the end and the start is the first node's id,
      or "n0" with no nodes. */
  method CompileBanter(id: string, src: string) returns (d: Dialogue)
    ensures d.id == id
    ensures d.nodes == MarkEnd(CompileLines(Lines(src)))
    ensures d.start == (if d.nodes == [] then "n0" else d.nodes[0].id)
  {
    var lines := Lines(src);
    var nodes: seq<Node> := [];
    var count := 0;
    var k := 0;
    while k < |lines|
      invariant k <= |lines|
      invariant nodes == CompileLines(lines[..k]) && count == |nodes|
    {
      CompileLinesStep(lines, k);
      nodes, count := CompileStep(nodes, count, lines[k]);
      k := k + 1;
    }
    assert lines[..k] == lines;
    nodes := MarkEnd(nodes);
    d := Dialogue(id, if nodes == [] then "n0" else nodes[0].id, nodes);
  }

  /** A compiled dialogue has one node per `[` line with ids n0, n1, ...;
      exactly the last node ends it, and it always starts at "n0". */
  lemma CompiledShape(lines: seq<string>)
    ensures var nodes := MarkEnd(CompileLines(lines));
      |nodes| == SpeakerCount(lines)
      && (forall i :: 0 <= i < |nodes| ==>
            nodes[i].id == NodeId(i) && nodes[i].line.Some? && (nodes[i].end <==> i == |nodes| - 1))
      && (nodes != [] ==> nodes[0].id == "n0")
  {
    CompileLinesShape(lines);
    var c := CompileLines(lines);
    var nodes := MarkEnd(c);
    forall i | 0 <= i < |nodes|
      ensures nodes[i].id == NodeId(i) && nodes[i].line.Some? && (nodes[i].end <==> i == |nodes| - 1)
    {
      if i < |nodes| - 1 {
        assert nodes[i] == nodes[..|nodes| - 1][i] == c[i];
      }
    }
    assert NodeId(0) == "n0";
   }
}
