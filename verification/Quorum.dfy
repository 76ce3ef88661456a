/** Fan-out to a majority of the gateway's nodes, against commitment by a majority of the members. */
module Quorum {
  function Majority(n: nat): nat { n / 2 + 1 }

  /** The nodes of a list that took the payload. */
  function Takers(nodes: seq<string>, up: set<string>): set<string> { set n | n in nodes && n in up }

  predicate Distinct(nodes: seq<string>) { forall i, j | 0 <= i < j < |nodes| :: nodes[i] != nodes[j] }

  function Members(nodes: seq<string>): set<string> { set n | n in nodes }

  lemma {:induction false} MembersSize(nodes: seq<string>)
    requires Distinct(nodes)
    ensures |Members(nodes)| == |nodes|
  {
    if nodes != [] {
      var init, last := nodes[..|nodes| - 1], nodes[|nodes| - 1];
      MembersSize(init);
      assert Members(nodes) == Members(init) + {last};
    }
  }

  /** The counting loop: a fan-out succeeds exactly when a majority of the listed nodes took the payload. */
  method FanOut(nodes: seq<string>, up: set<string>) returns (ok: bool)
    requires Distinct(nodes)
    ensures ok <==> |Takers(nodes, up)| >= Majority(|Members(nodes)|)
    ensures ok <==> 2 * |Takers(nodes, up)| > |Members(nodes)|
  {
    var count := 0;
    for i := 0 to |nodes|
      invariant count == |Takers(nodes[..i], up)|
    {
      assert nodes[..i + 1] == nodes[..i] + [nodes[i]];
      if nodes[i] in up {
        assert Takers(nodes[..i + 1], up) == Takers(nodes[..i], up) + {nodes[i]};
        assert nodes[i] !in nodes[..i];
        count := count + 1;
      } else {
        assert Takers(nodes[..i + 1], up) == Takers(nodes[..i], up);
      }
    }
    assert nodes[..|nodes|] == nodes;
    MembersSize(nodes);
    hide Takers, Members, Distinct;
    ok := count >= Majority(|nodes|);
  }

  // ---- when the two majorities meet ----

  /** A node group that can carry a fan-out, or a commit. */
  predicate Carries(group: set<string>, all: set<string>) { group <= all && 2 * |group| > |all| }

  /** Every fan-out reaches a node of every commit quorum. */
  ghost predicate AlwaysMeet(gateway: set<string>, raft: set<string>) {
    forall took, committed | Carries(took, gateway) && Carries(committed, raft) :: took * committed != {}
  }

  /** How many nodes a majority needs beyond those outside the other list. */
  function Needs(all: set<string>, own: set<string>): nat {
    if Majority(|all|) > |own| then Majority(|all|) - |own| else 0
  }

  lemma {:induction false} SubsetSize(a: set<string>, b: set<string>)
    requires a <= b
    ensures |a| <= |b|
  {
    assert b == a + (b - a);
  }

  lemma {:induction false} Choose(s: set<string>, n: nat) returns (r: set<string>)
    requires n <= |s|
    ensures r <= s && |r| == n
  {
    if n == 0 {
      r := {};
    } else {
      var x :| x in s;
      r := Choose(s - {x}, n - 1);
      r := r + {x};
    }
  }

  /** A majority holds at least what it needs of the shared nodes. */
  lemma SharedPart(group: set<string>, all: set<string>, other: set<string>)
    requires Carries(group, all)
    ensures |group * (all * other)| >= Needs(all, all - other)
  {
    var shared, own := group * (all * other), group * (all - other);
    assert group == shared + own;
    SubsetSize(own, all - other);
  }

  lemma MeetWhenCrowded(a: set<string>, b: set<string>, took: set<string>, committed: set<string>)
    requires Carries(took, a) && Carries(committed, b)
    requires Needs(a, a - b) + Needs(b, b - a) > |a * b|
    ensures took * committed != {}
  {
    SharedPart(took, a, b);
    SharedPart(committed, b, a);
    var x, y := took * (a * b), committed * (a * b);
    assert committed * (b * a) == y;
    SubsetSize(x + y, a * b);
    assert |x + y| + |x * y| == |x| + |y|;
    var n :| n in x * y;
    assert n in took * committed;
  }

  lemma ApartWhenRoomy(a: set<string>, b: set<string>) returns (took: set<string>, committed: set<string>)
    requires Needs(a, a - b) + Needs(b, b - a) <= |a * b|
    ensures Carries(took, a) && Carries(committed, b) && took * committed == {}
  {
    var x := Choose(a * b, Needs(a, a - b));
    assert a * b == x + (a * b - x);
    var y := Choose(a * b - x, Needs(b, b - a));
    took, committed := (a - b) + x, (b - a) + y;
    assert |took| == |a - b| + |x| && |committed| == |b - a| + |y|;
  }

  /** EXACT: every fan-out meets every commit quorum if and only if the shared nodes are too few for
      two majorities to share them out. */
  lemma MeetExact(gateway: set<string>, raft: set<string>)
    ensures AlwaysMeet(gateway, raft) <==>
            Needs(gateway, gateway - raft) + Needs(raft, raft - gateway) > |gateway * raft|
  {
    if Needs(gateway, gateway - raft) + Needs(raft, raft - gateway) > |gateway * raft| {
      forall took, committed | Carries(took, gateway) && Carries(committed, raft) ensures took * committed != {} {
        MeetWhenCrowded(gateway, raft, took, committed);
      }
    } else {
      var took, committed := ApartWhenRoomy(gateway, raft);
    }
  }

  /** PAYLOAD AVAILABLE: when the gateway's list is the membership, every commit quorum of a put holds a
      node that took its payload, for every cluster and every choice of the two majorities. */
  lemma PayloadAvailable(nodes: seq<string>, up: set<string>, committed: set<string>)
    requires Distinct(nodes) && Carries(Takers(nodes, up), Members(nodes)) && Carries(committed, Members(nodes))
    ensures exists n :: n in committed && n in Takers(nodes, up)
  {
    var all := Members(nodes);
    assert all - all == {} && all * all == all;
    MeetWhenCrowded(all, all, Takers(nodes, up), committed);
    var n :| n in Takers(nodes, up) * committed;
  }
}
