/** Haunted Wasteland, part 1 (day8/src/main.rs): a network of nodes, each
    with a left and a right neighbour, read from fixed columns of lines such
    as `"AAA = (BBB, CCC)"`, and a walk from `AAA` that follows an L/R
    instruction string, starting over at its end, until it reaches `ZZZ`. */
module Network {
  import opened Text

  type Node = string

  /** `parse_line`: the node, its left and its right neighbour, sliced from
      columns 0..3, 7..10 and 12..15. `None` is the panic on a line shorter
      than 15 characters. */
  function ParseLine(line: string): (r: Option<(Node, Node, Node)>)
    ensures r.Some? <==> |line| >= 15
  {
    if |line| < 15 then None else Some((line[0..3], line[7..10], line[12..15]))
  }

  /** A network line written out. */
  function ShowLine(node: Node, left: Node, right: Node): string
  {
    node + " = (" + left + ", " + right + ")"
  }

  /** Three-character names are read back from the line they are written
      in; the line has exactly the 16 characters the columns assume. */
  lemma ParseShowLine(node: Node, left: Node, right: Node)
    requires |node| == 3 && |left| == 3 && |right| == 3
    ensures |ShowLine(node, left, right)| == 16
    ensures ParseLine(ShowLine(node, left, right)) == Some((node, left, right))
  {
    var line := ShowLine(node, left, right);
    assert line[0..3] == node;
    assert line[7..10] == left;
    assert line[12..15] == right;
  }

  /** The map `main` builds: each line inserted in turn, so a later line for
      the same node replaces an earlier one. */
  function Build(lines: seq<string>): Option<map<Node, (Node, Node)>>
  {
    if |lines| == 0 then Some(map[])
    else match (Build(lines[..|lines| - 1]), ParseLine(lines[|lines| - 1]))
      case (Some(m), Some((node, left, right))) => Some(m[node := (left, right)])
      case _ => None
  }

  /** The loop of `main` that fills the `HashMap` from the node lines. */
  method BuildNetwork(lines: seq<string>) returns (network: Option<map<Node, (Node, Node)>>)
    ensures network == Build(lines)
  {
    var m: map<Node, (Node, Node)> := map[];
    var k := 0;
    while k < |lines|
      invariant 0 <= k <= |lines|
      invariant Build(lines[..k]) == Some(m)
    {
      assert lines[..k + 1][..k] == lines[..k];
      if |lines[k]| < 15 {
        BuildFails(lines, k);
        return None;
      }
      var (node, left, right) := ParseLine(lines[k]).value;
      m := m[node := (left, right)];
      k := k + 1;
    }
    assert lines[..k] == lines;
    return Some(m);
  }

  /** One short line makes the whole build fail. */
  lemma {:induction false} BuildFails(lines: seq<string>, k: nat)
    requires k < |lines| && |lines[k]| < 15
    ensures Build(lines).None?
  {
    if k < |lines| - 1 {
      BuildFails(lines[..|lines| - 1], k);
    }
  }

  /** The line that last names `node` holds its neighbours. */
  ghost predicate LastNaming(lines: seq<string>, node: Node, k: int)
  {
    0 <= k < |lines| && |lines[k]| >= 15 && lines[k][0..3] == node
    && forall j :: k < j < |lines| ==> |lines[j]| < 15 || lines[j][0..3] != node
  }

  /** A successful build knows exactly the nodes some line names, and each
      with the neighbours from the last line naming it. */
  lemma {:induction false} BuildMeaning(lines: seq<string>, node: Node)
    ensures Build(lines).None? <==> exists k :: 0 <= k < |lines| && |lines[k]| < 15
    ensures Build(lines).Some? ==>
      (node in Build(lines).value <==> exists k :: 0 <= k < |lines| && lines[k][0..3] == node)
    ensures Build(lines).Some? && node in Build(lines).value ==>
      exists k :: LastNaming(lines, node, k)
        && Build(lines).value[node] == (lines[k][7..10], lines[k][12..15])
  {
    if |lines| > 0 {
      var init := lines[..|lines| - 1];
      var last := |lines| - 1;
      BuildMeaning(init, node);
      assert forall k :: 0 <= k < |init| ==> init[k] == lines[k];
      if Build(init).None? {
        var k :| 0 <= k < |init| && |init[k]| < 15;
        assert |lines[k]| < 15;
      } else if |lines[last]| >= 15 {
        var m := Build(init).value;
        if lines[last][0..3] == node {
          assert LastNaming(lines, node, last);
        } else if node in m {
          var k :| LastNaming(init, node, k) && m[node] == (init[k][7..10], init[k][12..15]);
          assert LastNaming(lines, node, k);
        }
        if node in Build(lines).value {
          var k :| 0 <= k < |lines| && lines[k][0..3] == node;
        }
      }
    }
  }

  /** One move from `node`: to the right neighbour on `'R'`, to the left one
      on any other character. `None` is the panic on a node missing from the
      map. */
  function Move(network: map<Node, (Node, Node)>, node: Node, instruction: char): Option<Node>
  {
    if node !in network then None
    else if instruction == 'R' then Some(network[node].1)
    else Some(network[node].0)
  }

  /** The instruction index after `k` moves of a walk over `n`
      instructions: one further each move, back to 0 at the end. */
  function Index(n: nat, k: nat): (i: nat)
    requires n > 0
    ensures i < n
  {
    if k == 0 then 0 else if Index(n, k - 1) + 1 == n then 0 else Index(n, k - 1) + 1
  }

  /** The index counts the moves for the first round of instructions, and
      then repeats with period `n`. */
  lemma {:induction false} IndexWraps(n: nat, k: nat)
    requires n > 0
    ensures k < n ==> Index(n, k) == k
    ensures Index(n, k + n) == Index(n, k)
  {
    if k == 0 {
      IndexFirstRound(n, n - 1);
    } else {
      IndexWraps(n, k - 1);
      if k < n {
        IndexFirstRound(n, k);
      }
    }
  }

  lemma {:induction false} IndexFirstRound(n: nat, k: nat)
    requires n > 0 && k < n
    ensures Index(n, k) == k
  {
    if k > 0 {
      IndexFirstRound(n, k - 1);
    }
  }

  /** `(index + 1) % n` is the index's wrap-around step. */
  lemma ModStep(i: nat, n: nat)
    requires i < n
    ensures (i + 1) % n == if i + 1 == n then 0 else i + 1
  {
  }

  /** Where the walk is after `k` moves, the instructions starting over at
      their end; `None` once a move has panicked (a missing node, or no
      instructions at all). */
  function Position(instructions: string, network: map<Node, (Node, Node)>, k: nat): Option<Node>
  {
    if k == 0 then Some("AAA")
    else match Position(instructions, network, k - 1)
      case None => None
      case Some(node) =>
        if |instructions| == 0 then None
        else Move(network, node, instructions[Index(|instructions|, k - 1)])
  }

  datatype Outcome = Arrived(steps: nat) | Panicked | OutOfFuel

  /** The walk has not reached `ZZZ` in its first `k` positions. */
  ghost predicate NotYet(instructions: string, network: map<Node, (Node, Node)>, k: nat)
  {
    forall j :: 0 <= j < k ==> Position(instructions, network, j) != Some("ZZZ")
  }

  /** `part1`'s loop, returning the step count instead of printing it. The
      loop need not end, so it runs at most `fuel` moves. The count is the
      first time the walk stands on `ZZZ`. */
  method Walk(instructions: string, network: map<Node, (Node, Node)>, fuel: nat) returns (outcome: Outcome)
    ensures outcome.Arrived? ==> outcome.steps <= fuel
    ensures outcome.Arrived? ==> Position(instructions, network, outcome.steps) == Some("ZZZ")
    ensures outcome.Arrived? ==> NotYet(instructions, network, outcome.steps)
    ensures outcome.Panicked? ==>
      exists k: nat :: k <= fuel && Position(instructions, network, k).None? && NotYet(instructions, network, k)
    ensures outcome.OutOfFuel? ==> NotYet(instructions, network, fuel + 1)
  {
    var index := 0;
    var current: Node := "AAA";
    var steps := 0;
    while current != "ZZZ"
      invariant steps <= fuel
      invariant Position(instructions, network, steps) == Some(current)
      invariant NotYet(instructions, network, steps)
      invariant |instructions| > 0 ==> index == Index(|instructions|, steps)
      invariant |instructions| == 0 ==> index == 0
      decreases fuel - steps
    {
      if steps == fuel {
        return OutOfFuel;
      }
      if index >= |instructions| {
        assert Position(instructions, network, steps + 1).None?;
        return Panicked;
      }
      if current !in network {
        assert Position(instructions, network, steps + 1).None?;
        return Panicked;
      }
      if instructions[index] == 'R' {
        current := network[current].1;
      } else {
        current := network[current].0;
      }
      ModStep(index, |instructions|);
      index := (index + 1) % |instructions|;
      steps := steps + 1;
    }
    return Arrived(steps);
  }

  /** Two moments at the same node and the same instruction index are
      followed by the same walk. */
  lemma {:induction false} SameFuture(instructions: string, network: map<Node, (Node, Node)>, a: nat, b: nat, j: nat)
    requires |instructions| > 0
    requires Position(instructions, network, a) == Position(instructions, network, b)
    requires Index(|instructions|, a) == Index(|instructions|, b)
    ensures Position(instructions, network, a + j) == Position(instructions, network, b + j)
    ensures Index(|instructions|, a + j) == Index(|instructions|, b + j)
    decreases j
  {
    if j > 0 {
      SameStep(instructions, network, a, b);
      SameFuture(instructions, network, a + 1, b + 1, j - 1);
    }
  }

  /** Equal positions at equal indices are followed by equal positions. */
  lemma SameStep(instructions: string, network: map<Node, (Node, Node)>, a: nat, b: nat)
    requires |instructions| > 0
    requires Position(instructions, network, a) == Position(instructions, network, b)
    requires Index(|instructions|, a) == Index(|instructions|, b)
    ensures Position(instructions, network, a + 1) == Position(instructions, network, b + 1)
    ensures Index(|instructions|, a + 1) == Index(|instructions|, b + 1)
  {
  }

  /** A walk that comes back to a node at the same instruction index before
      ever standing on `ZZZ` never reaches it: `part1`'s loop does not end. */
  lemma {:induction false} NeverArrives(instructions: string, network: map<Node, (Node, Node)>, a: nat, p: nat, k: nat)
    requires |instructions| > 0 && p > 0
    requires Position(instructions, network, a) == Position(instructions, network, a + p)
    requires Index(|instructions|, a) == Index(|instructions|, a + p)
    requires NotYet(instructions, network, a + p)
    ensures Position(instructions, network, k) != Some("ZZZ")
    decreases k
  {
    if k >= a + p {
      SameFuture(instructions, network, a, a + p, k - p - a);
      NeverArrives(instructions, network, a, p, k - p);
    }
  }
}
