/**
Elections over whole runs of casts and recasts: exactly when the winner holds the least
enabled vote, and goes on to do so whatever ballots are disabled.
*/
module GVotableRuns {
  import opened GVotableOrder

  // ----- recasts -----

  /** As for a cast, a recast keeps the enabled ballots in order among themselves, except exactly when it enables
      a ballot that is placed before an enabled one it compares above. */
  lemma RecastKeepsEnabledOrder(H: Hash, c: Comparator, l: seq<Ballot>, reason: string, enabled: bool)
    requires c.Total() && EnabledOrdered(c, l)
    ensures var m, k := Others(H, l, reason), Find(H, l, reason);
      EnabledOrdered(c, RecastList(H, c, l, reason, enabled)) <==>
        (k < |l| && enabled ==> Precedes(c, m, Place(c, m, l[k].vote), l[k].vote))
  {
    var k := Find(H, l, reason);
    if k < |l| {
      WithoutEnabledOrdered(c, l, k);
      AddedEnabledOrdered(c, Without(l, k), l[k].(enabled := enabled));
    }
  }

  /** A recast leaves the least enabled vote elected, except exactly when it enables a ballot that is placed at or
      before the winner among the others although it compares above it. */
  lemma RecastElectsLeast(H: Hash, c: Comparator, l: seq<Ballot>, reason: string, enabled: bool)
    requires c.Total() && EnabledOrdered(c, l)
    ensures var k := Find(H, l, reason);
      WinnerLeast(c, RecastList(H, c, l, reason, enabled)) <==>
        (k < |l| && enabled ==> Fair(c, Others(H, l, reason), l[k].vote))
  {
    var k := Find(H, l, reason);
    if k == |l| || !enabled {
      RecastKeepsEnabledOrder(H, c, l, reason, enabled);
      EnabledFirstIsLeast(c, RecastList(H, c, l, reason, enabled));
    } else {
      WithoutEnabledOrdered(c, l, k);
      AddedElectsLeast(c, Without(l, k), l[k].(enabled := true));
    }
  }

  // ----- winners after any disabling -----

  // Only the ballots that keep[i] says are still enabled.
  function Masked(l: seq<Ballot>, keep: seq<bool>): (r: seq<Ballot>)
    requires |keep| == |l|
    ensures |r| == |l| && forall i :: 0 <= i < |l| ==> r[i] == l[i].(enabled := l[i].enabled && keep[i])
  {
    seq(|l|, i requires 0 <= i < |l| => l[i].(enabled := l[i].enabled && keep[i]))
  }

  // The winner holds the least enabled vote, whatever ballots are disabled in place.
  ghost predicate Robust(c: Comparator, l: seq<Ballot>) {
    forall keep: seq<bool> :: |keep| == |l| ==> WinnerLeast(c, Masked(l, keep))
  }

  lemma RobustExact(c: Comparator, l: seq<Ballot>)
    requires c.Total()
    ensures Robust(c, l) <==> EnabledOrdered(c, l)
  {
    hide Le;
    if EnabledOrdered(c, l) {
      forall keep: seq<bool> | |keep| == |l| ensures WinnerLeast(c, Masked(l, keep)) {
        assert EnabledOrdered(c, Masked(l, keep));
        EnabledFirstIsLeast(c, Masked(l, keep));
      }
    }
    if Robust(c, l) {
      forall i, j | 0 <= i < j < |l| && l[i].enabled && l[j].enabled ensures Le(c, l[i].vote, l[j].vote) {
        var keep := seq(|l|, x => x == i || x == j);
        var r := Masked(l, keep);
        assert WinnerLeast(c, r);
        assert r[i].enabled && r[j].enabled;
        FirstIs(r, i);
      }
    }
  }

  // ----- whole runs -----

  // What an operation enables, if anything.
  function Enables(H: Hash, l: seq<Ballot>, op: Op): seq<Vote> {
    var k := Find(H, l, op.reason);
    if !op.enabled then [] else if op.Cast? then [op.vote] else if k < |l| then [l[k].vote] else []
  }

  // The vote it enables precedes every enabled ballot that it is placed before.
  ghost predicate Placed(H: Hash, c: Comparator, l: seq<Ballot>, op: Op) {
    var m := Others(H, l, op.reason);
    forall v :: v in Enables(H, l, op) ==> Precedes(c, m, Place(c, m, v), v)
  }

  lemma ApplyKeepsEnabledOrder(H: Hash, c: Comparator, l: seq<Ballot>, op: Op)
    requires c.Total() && EnabledOrdered(c, l)
    ensures EnabledOrdered(c, Apply(H, c, l, op)) <==> Placed(H, c, l, op)
  {
    hide EnabledOrdered, Precedes, Place, CastList, RecastList, Others;
    match op {
      case Cast(reason, vote, enabled) => CastKeepsEnabledOrder(H, c, l, reason, vote, enabled);
      case Recast(reason, enabled) => RecastKeepsEnabledOrder(H, c, l, reason, enabled);
    }
  }

  lemma RunSnoc(H: Hash, c: Comparator, ops: seq<Op>, n: nat)
    requires n < |ops|
    ensures Run(H, c, ops[..n + 1]) == Apply(H, c, Run(H, c, ops[..n]), ops[n])
  {
    assert ops[..n + 1][..n] == ops[..n];
  }

  lemma {:induction false} PlacedOrders(H: Hash, c: Comparator, ops: seq<Op>, n: nat)
    requires c.Total() && n <= |ops| && forall i :: 0 <= i < n ==> Placed(H, c, Run(H, c, ops[..i]), ops[i])
    ensures EnabledOrdered(c, Run(H, c, ops[..n]))
  {
    hide Placed, Apply;
    if n > 0 {
      PlacedOrders(H, c, ops, n - 1);
      RunSnoc(H, c, ops, n - 1);
      ApplyKeepsEnabledOrder(H, c, Run(H, c, ops[..n - 1]), ops[n - 1]);
    }
  }

  /** Over every run: the least enabled vote is elected at every point, and would be whatever ballots were disabled
      there, exactly when every vote that is enabled precedes the enabled ballots it is placed before. */
  lemma RunElectsLeast(H: Hash, c: Comparator, ops: seq<Op>)
    requires c.Total()
    ensures (forall n :: 0 <= n <= |ops| ==> Robust(c, Run(H, c, ops[..n])))
      <==> (forall n :: 0 <= n < |ops| ==> Placed(H, c, Run(H, c, ops[..n]), ops[n]))
  {
    hide Robust, Placed, EnabledOrdered, Run;
    if forall n :: 0 <= n <= |ops| ==> Robust(c, Run(H, c, ops[..n])) {
      forall n | 0 <= n < |ops| ensures Placed(H, c, Run(H, c, ops[..n]), ops[n]) {
        RobustExact(c, Run(H, c, ops[..n]));
        RobustExact(c, Run(H, c, ops[..n + 1]));
        RunSnoc(H, c, ops, n);
        ApplyKeepsEnabledOrder(H, c, Run(H, c, ops[..n]), ops[n]);
      }
    }
    if forall n :: 0 <= n < |ops| ==> Placed(H, c, Run(H, c, ops[..n]), ops[n]) {
      forall n | 0 <= n <= |ops| ensures Robust(c, Run(H, c, ops[..n])) {
        PlacedOrders(H, c, ops, n);
        RobustExact(c, Run(H, c, ops[..n]));
      }
    }
  }

  // ----- the elected vote -----

  // What the list elects with one more enabled vote v.
  ghost predicate ElectsWith(c: Comparator, m: seq<Ballot>, v: Vote) {
    if Place(c, m, v) <= First(m) then Least(c, m, v) else WinnerLeast(c, m)
  }

  lemma AddedElects(c: Comparator, m: seq<Ballot>, b: Ballot)
    requires c.Total() && b.enabled
    ensures WinnerLeast(c, Added(c, m, b)) <==> ElectsWith(c, m, b.vote)
  {
    hide Added, Place, First, Cmp, Le;
    var r, w := Added(c, m, b), First(m);
    var k := AddedAt(c, m, b);
    assert forall i :: 0 <= i < k ==> Shift(i, k) == i && r[i] == m[i];
    assert forall i :: k <= i < |m| ==> Shift(i + 1, k) == i && r[i + 1] == m[i];
    TotalOrder(c, b.vote, b.vote, b.vote);
    if k <= w {
      FirstIs(r, k);
      SameLeast(c, m, r, k, b.vote);
    } else {
      FirstIs(r, w);
      TotalOrder(c, b.vote, m[w].vote, b.vote);
      SameLeast(c, m, r, k, m[w].vote);
    }
  }

  // Least against one more ballot, disabled or with a vote that it does not exceed.
  lemma SameLeast(c: Comparator, m: seq<Ballot>, r: seq<Ballot>, k: nat, v: Vote)
    requires k < |r| == |m| + 1 && (r[k].enabled ==> Le(c, v, r[k].vote))
    requires forall i :: 0 <= i < k ==> r[i] == m[i]
    requires forall i :: k <= i < |m| ==> r[i + 1] == m[i]
    ensures Least(c, r, v) <==> Least(c, m, v)
  {
    hide Le;
    if Least(c, r, v) {
      forall i | 0 <= i < |m| && m[i].enabled ensures Le(c, v, m[i].vote) {
        assert r[if i < k then i else i + 1] == m[i];
      }
    }
    if Least(c, m, v) {
      forall i | 0 <= i < |r| && r[i].enabled ensures Le(c, v, r[i].vote) {
        assert i < k ==> r[i] == m[i];
        assert i > k ==> r[i] == m[i - 1];
      }
    }
  }

  // A disabled ballot at position k of r changes nothing.
  lemma DisabledIgnored(c: Comparator, m: seq<Ballot>, r: seq<Ballot>, k: nat)
    requires k < |r| == |m| + 1 && !r[k].enabled
    requires forall i :: 0 <= i < k ==> r[i] == m[i]
    requires forall i :: k <= i < |m| ==> r[i + 1] == m[i]
    ensures WinnerLeast(c, r) <==> WinnerLeast(c, m)
  {
    hide Le, First;
    var w := First(m);
    assert forall i :: k < i < |r| ==> r[i] == m[i - 1];
    if w < |m| {
      FirstIs(r, if w < k then w else w + 1);
      SameLeast(c, m, r, k, m[w].vote);
    }
  }

  // The list elects its least vote after an operation that leaves m and enables e.
  ghost predicate Elects(c: Comparator, m: seq<Ballot>, e: seq<Vote>) {
    if e == [] then WinnerLeast(c, m) else ElectsWith(c, m, e[0])
  }

  /** After any cast or recast, whatever the list was, the least enabled vote is elected exactly when the vote it
      enables is least among the other enabled ones, if it is placed before them, and otherwise when the winner
      of the other ballots is least among them. */
  lemma ApplyElects(H: Hash, c: Comparator, l: seq<Ballot>, op: Op)
    requires c.Total()
    ensures WinnerLeast(c, Apply(H, c, l, op)) <==> Elects(c, Others(H, l, op.reason), Enables(H, l, op))
  {
    var k := Find(H, l, op.reason);
    var r, m := Apply(H, c, l, op), Others(H, l, op.reason);
    hide Find, WinnerLeast, ElectsWith, Stored;
    if op.Cast? && k < |l| && !op.enabled {
      hide Added;
      DisabledIgnored(c, m, r, k);
    } else if op.Cast? || k < |l| {
      var b := if k < |l| then l[k].(enabled := op.enabled) else Ballot(op.enabled, Stored(op.reason), H(op.reason), 0);
      if op.Cast? { b := b.(vote := op.vote); }
      assert r == Added(c, m, b);
      hide Apply, Others;
      if op.enabled {
        AddedElects(c, m, b);
      } else {
        DisabledIgnored(c, m, r, |m|);
      }
    }
  }

  // The operation puts its vote in front and that is least, or it takes the winner away
  // and the next in line is least, or it leaves the winner.
  ghost predicate Sound(H: Hash, c: Comparator, l: seq<Ballot>, op: Op) {
    var k, m, e := Find(H, l, op.reason), Others(H, l, op.reason), Enables(H, l, op);
    if e != [] && Place(c, m, e[0]) <= First(m) then Least(c, m, e[0])
    else k < |l| && k == First(l) ==> WinnerLeast(c, m)
  }

  // Removing a ballot that is not the winner leaves the winner least.
  lemma OthersElect(H: Hash, c: Comparator, l: seq<Ballot>, reason: string)
    requires WinnerLeast(c, l) && (Find(H, l, reason) < |l| ==> Find(H, l, reason) != First(l))
    ensures WinnerLeast(c, Others(H, l, reason))
  {
    var k, w := Find(H, l, reason), First(l);
    hide Find, First, Le;
    if k < |l| {
      var m := Without(l, k);
      assert forall i :: 0 <= i < |m| ==> m[i] == l[if i < k then i else i + 1];
      if w < |l| {
        FirstIs(m, if w < k then w else w - 1);
      } else {
        assert forall i :: 0 <= i < |m| ==> !m[i].enabled;
      }
    }
  }

  lemma StepElects(H: Hash, c: Comparator, l: seq<Ballot>, op: Op)
    requires c.Total() && WinnerLeast(c, l)
    ensures WinnerLeast(c, Apply(H, c, l, op)) <==> Sound(H, c, l, op)
  {
    hide Apply, Place, Least, Find, First, Le, WinnerLeast, Others, Enables;
    ApplyElects(H, c, l, op);
    var k := Find(H, l, op.reason);
    if k < |l| ==> k != First(l) { OthersElect(H, c, l, op.reason); }
  }

  lemma {:induction false} SoundElects(H: Hash, c: Comparator, ops: seq<Op>, n: nat)
    requires c.Total() && n <= |ops| && forall i :: 0 <= i < n ==> Sound(H, c, Run(H, c, ops[..i]), ops[i])
    ensures WinnerLeast(c, Run(H, c, ops[..n]))
  {
    hide Sound, Apply;
    if n > 0 {
      SoundElects(H, c, ops, n - 1);
      RunSnoc(H, c, ops, n - 1);
      hide WinnerLeast;
      StepElects(H, c, Run(H, c, ops[..n - 1]), ops[n - 1]);
    }
  }

  /** Over every run of casts and recasts, the elected vote is the least enabled one at every point exactly when
      every operation that puts its vote in front of all enabled ballots has the least, and every other one
      that takes the winner away leaves the least next in line. */
  lemma WinnersExact(H: Hash, c: Comparator, ops: seq<Op>)
    requires c.Total()
    ensures (forall n :: 0 <= n <= |ops| ==> WinnerLeast(c, Run(H, c, ops[..n])))
      <==> (forall n :: 0 <= n < |ops| ==> Sound(H, c, Run(H, c, ops[..n]), ops[n]))
  {
    hide Sound, Run, WinnerLeast;
    if forall n :: 0 <= n <= |ops| ==> WinnerLeast(c, Run(H, c, ops[..n])) {
      forall n | 0 <= n < |ops| ensures Sound(H, c, Run(H, c, ops[..n]), ops[n]) {
        assert WinnerLeast(c, Run(H, c, ops[..n])) && WinnerLeast(c, Run(H, c, ops[..n + 1]));
        RunSnoc(H, c, ops, n);
        StepElects(H, c, Run(H, c, ops[..n]), ops[n]);
      }
    }
    if forall n :: 0 <= n < |ops| ==> Sound(H, c, Run(H, c, ops[..n]), ops[n]) {
      forall n | 0 <= n <= |ops| ensures WinnerLeast(c, Run(H, c, ops[..n])) {
        SoundElects(H, c, ops, n);
      }
    }
  }
}
