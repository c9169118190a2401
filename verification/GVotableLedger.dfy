/**
What the ballots of an election say after any run of casts and recasts: for every reason
the vote it was last cast with, and whether it was last enabled.
*/
module GVotableLedger {
  import opened GVotableOrder

  // By reason: the vote of its last cast, and what its last cast or recast said of it.
  type Ledger = map<string, (Vote, bool)>

  function Entered(led: Ledger, op: Op): Ledger {
    match op
    case Cast(reason, vote, enabled) => led[reason := (vote, enabled)]
    case Recast(reason, enabled) => if reason in led then led[reason := (led[reason].0, enabled)] else led
  }

  function Entries(ops: seq<Op>): Ledger {
    if ops == [] then map[] else Entered(Entries(ops[..|ops| - 1]), ops[|ops| - 1])
  }

  // The ballots are the entries of the ledger.
  ghost predicate Books(l: seq<Ballot>, led: Ledger) {
    && (forall b :: b in l ==> b.reason in led && led[b.reason] == (b.vote, b.enabled))
    && (forall r :: r in led ==> exists b :: b in l && b.reason == r)
  }

  lemma AddedHas(c: Comparator, l: seq<Ballot>, b: Ballot)
    ensures forall x :: x in Added(c, l, b) <==> x in l || x == b
  {
    var k := if b.enabled then Place(c, l, b.vote) else |l|;
    assert l == l[..k] + l[k..];
    hide Place;
  }

  lemma WithoutHas(l: seq<Ballot>, k: nat)
    requires DistinctReasons(l) && k < |l|
    ensures forall x :: x in Without(l, k) <==> x in l && x.reason != l[k].reason
  {
    var r := Without(l, k);
    assert forall i :: 0 <= i < |r| ==> r[i] == l[if i < k then i else i + 1];
    forall x | x in l && x.reason != l[k].reason ensures x in r {
      var i :| 0 <= i < |l| && l[i] == x;
      assert r[if i < k then i else i - 1] == x;
    }
  }

  lemma ReplacedHas(l: seq<Ballot>, k: nat, b: Ballot)
    requires DistinctReasons(l) && k < |l| && b.reason == l[k].reason
    ensures forall x :: x in l[k := b] <==> (x in l && x.reason != b.reason) || x == b
  {
    var r := l[k := b];
    assert r[k] == b;
    forall x | x in l && x.reason != b.reason ensures x in r {
      var i :| 0 <= i < |l| && l[i] == x;
      assert r[i] == x;
    }
  }

  // The ballots after an operation: all of other reasons as they were, and one of this.
  lemma ApplyHas(H: Hash, c: Comparator, l: seq<Ballot>, op: Op)
    requires DistinctReasons(l) && Whole(H, l) && Short(op)
    ensures var k := Find(H, l, op.reason);
      var vote := if op.Cast? then op.vote else if k < |l| then l[k].vote else 0;
      forall x :: x in Apply(H, c, l, op) <==>
        if op.Recast? && k == |l| then x in l
        else (x in l && x.reason != op.reason) || x == Ballot(op.enabled, op.reason, H(op.reason), vote)
  {
    var k := Find(H, l, op.reason);
    hide Find, Added, Without;
    if op.Recast? && k == |l| {
    } else if k == |l| {
      AddedHas(c, l, Ballot(op.enabled, op.reason, H(op.reason), op.vote));
      forall x | x in l ensures x.reason != op.reason {
        var i :| 0 <= i < |l| && l[i] == x;
        assert !Matches(H, l[i], op.reason);
      }
    } else {
      var b := l[k].(enabled := op.enabled, vote := if op.Cast? then op.vote else l[k].vote);
      WithoutHas(l, k);
      AddedHas(c, Without(l, k), b);
      ReplacedHas(l, k, b);
    }
  }

  lemma BooksSet(l: seq<Ballot>, l': seq<Ballot>, led: Ledger, b: Ballot)
    requires Books(l, led) && forall x :: x in l' <==> (x in l && x.reason != b.reason) || x == b
    ensures Books(l', led[b.reason := (b.vote, b.enabled)])
  {
    assert b in l';
    forall r | r in led && r != b.reason ensures exists x :: x in l' && x.reason == r {
      var x :| x in l && x.reason == r;
      assert x in l';
    }
  }

  lemma BooksKept(H: Hash, c: Comparator, l: seq<Ballot>, led: Ledger, op: Op)
    requires DistinctReasons(l) && Whole(H, l) && Short(op) && Books(l, led)
    ensures Books(Apply(H, c, l, op), Entered(led, op))
  {
    var k := Find(H, l, op.reason);
    FoundExact(H, l, op.reason);
    if op.Recast? && k == |l| {
      assert Entered(led, op) == led && Apply(H, c, l, op) == l by { hide Find; }
    } else {
      var v := if op.Cast? then op.vote else l[k].vote;
      assert Entered(led, op) == led[op.reason := (v, op.enabled)] by { if k < |l| { assert l[k] in l; } }
      ApplyHas(H, c, l, op);
      hide Books, Apply, Find, Entered, Whole, DistinctReasons;
      BooksSet(l, Apply(H, c, l, op), led, Ballot(op.enabled, op.reason, H(op.reason), v));
    }
  }

  lemma FoundExact(H: Hash, l: seq<Ballot>, reason: string)
    requires Whole(H, l)
    ensures Find(H, l, reason) < |l| <==> exists b :: b in l && b.reason == reason
  {
    var k := Find(H, l, reason);
    hide Find;
    if b :| b in l && b.reason == reason {
      var i :| 0 <= i < |l| && l[i] == b;
      assert Matches(H, l[i], reason);
    }
    if k < |l| { assert l[k] in l; }
  }

  /** Over every run of casts and recasts with reasons short enough to store: there is one ballot for each reason
      that was cast, with the vote it was last cast with, disabled or not, and enabled as it last was. */
  lemma {:induction false} BallotsFollow(H: Hash, c: Comparator, ops: seq<Op>)
    requires forall n :: 0 <= n < |ops| ==> Short(ops[n])
    ensures Books(Run(H, c, ops), Entries(ops)) && DistinctReasons(Run(H, c, ops))
  {
    ShortReasonsOneBallot(H, c, ops);
    if ops != [] {
      var n := |ops| - 1;
      hide Books, Entered, Apply, Whole, DistinctReasons;
      BallotsFollow(H, c, ops[..n]);
      ShortReasonsOneBallot(H, c, ops[..n]);
      BooksKept(H, c, Run(H, c, ops[..n]), Entries(ops[..n]), ops[n]);
    }
  }
}
