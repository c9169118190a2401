/**
The outcome an election object holds after each of any number of casts and recasts,
against the ballots that are then enabled.
*/
module GVotableOutcomes {
  import opened GVotableOrder
  import opened GVotableRuns
  import opened GVotableElection
  import opened GVotableLedger

  // If any ballot is enabled, the outcome is the reason and vote of one of them, and no
  // enabled vote should precede it.
  ghost predicate LeastOutcome(c: Comparator, l: seq<Ballot>, o: Outcome) {
    (exists b :: b in l && b.enabled) ==>
      && o.Elected? && Least(c, l, o.vote)
      && exists b :: b in l && b.enabled && b.reason == o.reason && b.vote == o.vote
  }

  lemma ChosenLeast(c: Comparator, l: seq<Ballot>, hasDefault: int, defaultVote: Vote, o: Outcome)
    requires Chosen(l, false, hasDefault, defaultVote, o)
    ensures LeastOutcome(c, l, o) <==> WinnerLeast(c, l)
  {
    hide Le, First;
    if exists b :: b in l && b.enabled {
      var k :| 0 <= k < |l| && l[k].enabled && (forall j :: 0 <= j < k ==> !l[j].enabled)
               && o == Elected(l[k].reason, l[k].vote);
      FirstIs(l, k);
      assert l[k] in l;
    } else {
      assert forall i :: 0 <= i < |l| ==> l[i] in l;
    }
  }

  // Casts have a reason; a cast without one is refused.
  ghost predicate Named(ops: seq<Op>) { forall i :: 0 <= i < |ops| && ops[i].Cast? ==> ops[i].reason != "" }

  // One accepted cast, or one recast, of an election of ints.
  method Operate(e: Election, op: Op)
    requires e.Valid() && !e.isBool && !e.forced && (op.Cast? ==> op.reason != "") && e.Cached() == e.Fresh()
    modifies e
    ensures e.votes == Apply(e.hash, e.cmp, old(e.votes), op) && e.Cached() == e.Fresh() && e.forced == old(e.forced)
  {
    hide Evaluate, CastList, RecastList;
    match op {
      case Cast(reason, vote, enabled) =>
        var err, callback := e.Cast(reason, vote, enabled, true);
      case Recast(reason, enabled) =>
        if Find(e.hash, e.votes, reason) == |e.votes| { NotFound(e.hash, e.cmp, e.votes, reason, enabled); }
        var err, callback := e.Recast(reason, enabled);
    }
  }

  lemma NotFound(H: Hash, c: Comparator, l: seq<Ballot>, reason: string, enabled: bool)
    requires Find(H, l, reason) == |l|
    ensures RecastList(H, c, l, reason, enabled) == l
  {
  }

  /** A new election of ints under an order of votes, and any casts and recasts: after every one of them the
      election holds the reason and vote of an enabled ballot that no enabled vote should precede, if any is
      enabled, exactly when every one that puts its vote in front has the least, and every other one that takes
      the winner away leaves the least next in line. */
  method OutcomesExact(c: Comparator, hasCallback: bool, H: Hash, ops: seq<Op>) returns (outcomes: seq<Outcome>)
    requires c.Total() && Named(ops)
    ensures |outcomes| == |ops|
    ensures (forall n :: 0 <= n < |ops| ==> LeastOutcome(c, Run(H, c, ops[..n + 1]), outcomes[n]))
      <==> (forall n :: 0 <= n < |ops| ==> Sound(H, c, Run(H, c, ops[..n]), ops[n]))
  {
    var e := new Election(c, false, hasCallback, H);
    outcomes := [];
    var i := 0;
    hide Sound, Evaluate, Apply, WinnerLeast, LeastOutcome, Run, Chosen;
    EmptyRun(H, c, ops);
    while i < |ops|
      invariant i <= |ops| && fresh(e) && Agree(H, c, ops, outcomes, i)
      invariant e.Valid() && !e.isBool && !e.forced && e.Cached() == e.Fresh() && e.cmp == c && e.hash == H
      invariant e.votes == Run(H, c, ops[..i])
    {
      Operate(e, ops[i]);
      RunSnoc(H, c, ops, i);
      var o := if e.valid then Elected(e.reason, e.result) else NoResult;
      ChosenLeast(c, e.votes, e.hasDefault, e.defaultVote, o);
      AgreeSnoc(H, c, ops, outcomes, i, o);
      outcomes := outcomes + [o];
      i := i + 1;
    }
    AgreeAll(H, c, ops, outcomes);
  }

  // The first n outcomes are least exactly where the winner of the list is.
  ghost predicate Agree(H: Hash, c: Comparator, ops: seq<Op>, outcomes: seq<Outcome>, n: nat) {
    && n == |outcomes| <= |ops|
    && forall i :: 0 <= i < n ==> AgreeAt(H, c, ops, i + 1, outcomes[i])
  }

  ghost predicate AgreeAt(H: Hash, c: Comparator, ops: seq<Op>, n: nat, o: Outcome) {
    n <= |ops| && (LeastOutcome(c, Run(H, c, ops[..n]), o) <==> WinnerLeast(c, Run(H, c, ops[..n])))
  }

  lemma AgreeSnoc(H: Hash, c: Comparator, ops: seq<Op>, outcomes: seq<Outcome>, n: nat, o: Outcome)
    requires n < |ops| && Agree(H, c, ops, outcomes, n) && AgreeAt(H, c, ops, n + 1, o)
    ensures Agree(H, c, ops, outcomes + [o], n + 1)
  {
    hide AgreeAt;
  }

  lemma AgreeAll(H: Hash, c: Comparator, ops: seq<Op>, outcomes: seq<Outcome>)
    requires c.Total() && Agree(H, c, ops, outcomes, |ops|)
    ensures (forall n :: 0 <= n < |ops| ==> LeastOutcome(c, Run(H, c, ops[..n + 1]), outcomes[n]))
      <==> (forall n :: 0 <= n < |ops| ==> Sound(H, c, Run(H, c, ops[..n]), ops[n]))
  {
    EmptyRun(H, c, ops);
    WinnersExact(H, c, ops);
    hide Sound, WinnerLeast, LeastOutcome, Run;
    if forall n :: 0 <= n < |ops| ==> LeastOutcome(c, Run(H, c, ops[..n + 1]), outcomes[n]) {
      forall n | 0 <= n <= |ops| ensures WinnerLeast(c, Run(H, c, ops[..n])) {
        if n > 0 { assert AgreeAt(H, c, ops, (n - 1) + 1, outcomes[n - 1]); }
      }
    }
    if forall n :: 0 <= n <= |ops| ==> WinnerLeast(c, Run(H, c, ops[..n])) {
      forall n | 0 <= n < |ops| ensures LeastOutcome(c, Run(H, c, ops[..n + 1]), outcomes[n]) {
        assert AgreeAt(H, c, ops, n + 1, outcomes[n]) && WinnerLeast(c, Run(H, c, ops[..n + 1]));
      }
    }
  }

  lemma EmptyRun(H: Hash, c: Comparator, ops: seq<Op>)
    ensures Run(H, c, ops[..0]) == [] && WinnerLeast(c, Run(H, c, ops[..0]))
  {
  }

  // If any entry is enabled, the outcome is one of them, and no enabled vote should
  // precede it.
  ghost predicate LedgerLeast(c: Comparator, led: Ledger, o: Outcome) {
    (exists r :: r in led && led[r].1) ==>
      && o.Elected? && o.reason in led && led[o.reason] == (o.vote, true)
      && forall r :: r in led && led[r].1 ==> Le(c, o.vote, led[r].0)
  }

  lemma BooksLeast(c: Comparator, l: seq<Ballot>, led: Ledger, o: Outcome)
    requires Books(l, led)
    ensures LeastOutcome(c, l, o) <==> LedgerLeast(c, led, o)
  {
    hide Le;
    forall i | 0 <= i < |l| ensures l[i] in l {
    }
    if LeastOutcome(c, l, o) && exists r :: r in led && led[r].1 {
      forall r | r in led && led[r].1 ensures o.Elected? && Le(c, o.vote, led[r].0) {
        var b :| b in l && b.reason == r;
        var i :| 0 <= i < |l| && l[i] == b;
      }
    }
    if LedgerLeast(c, led, o) && exists b :: b in l && b.enabled {
      var b :| b in l && b.enabled;
      assert b.reason in led && led[b.reason].1;
      var x :| x in l && x.reason == o.reason;
    }
  }

  /** What that means for the callers: the outcome is least among the reasons last enabled, each with the vote it
      was last cast with. */
  lemma OutcomeInLedger(H: Hash, c: Comparator, ops: seq<Op>, o: Outcome)
    requires forall n :: 0 <= n < |ops| ==> Short(ops[n])
    ensures LeastOutcome(c, Run(H, c, ops), o) <==> LedgerLeast(c, Entries(ops), o)
  {
    BallotsFollow(H, c, ops);
    hide Run, Entries, Books, LeastOutcome, LedgerLeast, DistinctReasons;
    BooksLeast(c, Run(H, c, ops), Entries(ops), o);
  }
}
