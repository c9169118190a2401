/**
Ballots of an election: comparators, the order of the ballot list, and the vote that
the first enabled ballot elects.
*/
module GVotableOrder {
  import opened Common

  const TWO31 := 0x8000_0000
  const MAX_REASON_LEN := 32
  const DEFAULT_REASON := "Default"

  // The int of a vote, which is all an int election looks at.
  type Vote = v: int | 0 <= v < TWO32

  function AsInt(v: Vote): int { if v < TWO31 then v else v - TWO32 }

  datatype Comparator = IntMax | IntMin | UintMax | UintMin | MostRecent | LeastRecent {
    // A comparator of the votes, not of when they were cast.
    predicate Total() { !MostRecent? && !LeastRecent? }
  }

  function Sign(a: int, b: int): int { if a > b then 1 else if a < b then -1 else 0 }

  function Cmp(c: Comparator, a: Vote, b: Vote): int {
    match c
    case IntMax => -Sign(AsInt(a), AsInt(b))
    case IntMin => Sign(AsInt(a), AsInt(b))
    case UintMax => Sign(a, b)
    case UintMin => -Sign(a, b)
    case MostRecent => -1
    case LeastRecent => 1
  }

  predicate Le(c: Comparator, a: Vote, b: Vote) { Cmp(c, a, b) <= 0 }

  lemma TotalOrder(c: Comparator, x: Vote, y: Vote, z: Vote)
    requires c.Total()
    ensures Le(c, x, y) || Le(c, y, x)
    ensures Cmp(c, x, y) == 0 <==> x == y
    ensures Cmp(c, x, y) < 0 <==> !Le(c, y, x)
    ensures Le(c, x, y) && Le(c, y, z) ==> Le(c, x, z)
  {
  }

  // reason: the stored, possibly truncated reason; hash: the hash of the whole reason.
  datatype Ballot = Ballot(enabled: bool, reason: string, hash: nat, vote: Vote)

  // gvotable_internal_hash
  type Hash = string -> nat

  // The test of gvotable_ballot_find_internal. A stored reason is shorter than the
  // compared length, so it equals the whole reason or differs.
  predicate Matches(H: Hash, b: Ballot, reason: string) { b.hash == H(reason) && b.reason == reason }

  // ----- the list -----

  // Where gvotable_add_ballot puts a vote: before the first one it compares below.
  function Place(c: Comparator, l: seq<Ballot>, v: Vote): (k: nat)
    ensures k <= |l|
    ensures forall i :: 0 <= i < k ==> Cmp(c, v, l[i].vote) >= 0
    ensures k < |l| ==> Cmp(c, v, l[k].vote) < 0
  {
    if l == [] || Cmp(c, v, l[0].vote) < 0 then 0 else 1 + Place(c, l[1..], v)
  }

  // Disabled ballots go to the end.
  function Added(c: Comparator, l: seq<Ballot>, b: Ballot): seq<Ballot> {
    var k := if b.enabled then Place(c, l, b.vote) else |l|;
    l[..k] + [b] + l[k..]
  }

  function Shift(i: nat, k: nat): int { if i < k then i else i - 1 }

  lemma AddedAt(c: Comparator, l: seq<Ballot>, b: Ballot) returns (k: nat)
    ensures k == (if b.enabled then Place(c, l, b.vote) else |l|) <= |l|
    ensures |Added(c, l, b)| == |l| + 1 && Added(c, l, b)[k] == b
    ensures forall i :: 0 <= i <= |l| && i != k ==> Added(c, l, b)[i] == l[Shift(i, k)]
  {
    k := if b.enabled then Place(c, l, b.vote) else |l|;
  }

  // Index of the ballot of a reason, or |l|.
  function Find(H: Hash, l: seq<Ballot>, reason: string): (k: nat)
    ensures k <= |l| && (k < |l| ==> Matches(H, l[k], reason))
    ensures forall i :: 0 <= i < k ==> !Matches(H, l[i], reason)
  {
    if l == [] || Matches(H, l[0], reason) then 0 else 1 + Find(H, l[1..], reason)
  }

  function Without(l: seq<Ballot>, k: nat): seq<Ballot>
    requires k < |l|
  {
    l[..k] + l[k + 1..]
  }

  // strlcpy of a reason
  function Stored(reason: string): (r: string)
    ensures r <= reason && |r| <= 31 && (|reason| <= 31 ==> r == reason) && (|reason| > 31 ==> |r| == 31)
  {
    if |reason| < MAX_REASON_LEN then reason else reason[..MAX_REASON_LEN - 1]
  }

  // gvotable_cast_vote: an enabled vote is moved to its place, an existing one is
  // disabled where it is, a new one is added.
  function CastList(H: Hash, c: Comparator, l: seq<Ballot>, reason: string, vote: Vote, enabled: bool): seq<Ballot> {
    var k := Find(H, l, reason);
    if k == |l| then Added(c, l, Ballot(enabled, Stored(reason), H(reason), vote))
    else if enabled then Added(c, Without(l, k), l[k].(enabled := true, vote := vote))
    else l[k := l[k].(enabled := false, vote := vote)]
  }

  // gvotable_recast_ballot
  function RecastList(H: Hash, c: Comparator, l: seq<Ballot>, reason: string, enabled: bool): seq<Ballot> {
    var k := Find(H, l, reason);
    if k == |l| then l else Added(c, Without(l, k), l[k].(enabled := enabled))
  }

  // ----- order -----

  // Every ballot listed before an enabled one compares at most equal to it.
  ghost predicate Ordered(c: Comparator, l: seq<Ballot>) {
    forall i, j :: 0 <= i < j < |l| && l[j].enabled ==> Le(c, l[i].vote, l[j].vote)
  }

  lemma AddedOrdered(c: Comparator, l: seq<Ballot>, b: Ballot)
    requires c.Total() && Ordered(c, l)
    ensures Ordered(c, Added(c, l, b))
  {
    var k := AddedAt(c, l, b);
    var r := Added(c, l, b);
    hide Added, Place;
    forall i, j | 0 <= i < j < |r| && r[j].enabled ensures Le(c, r[i].vote, r[j].vote) {
      var i0, j0 := Shift(i, k), Shift(j, k);
      if j == k {
        assert r[i] == l[i];
        TotalOrder(c, b.vote, l[i].vote, b.vote);
      } else if i == k {
        assert r[j] == l[j0];
        TotalOrder(c, b.vote, l[k].vote, l[j0].vote);
      } else {
        assert r[i] == l[i0] && r[j] == l[j0];
      }
    }
  }

  lemma WithoutOrdered(c: Comparator, l: seq<Ballot>, k: nat)
    requires Ordered(c, l) && k < |l|
    ensures Ordered(c, Without(l, k))
  {
    var r := Without(l, k);
    forall i, j | 0 <= i < j < |r| && r[j].enabled ensures Le(c, r[i].vote, r[j].vote) {
      assert r[i] == l[if i < k then i else i + 1] && r[j] == l[if j < k then j else j + 1];
    }
  }

  // The vote is no later in the order than any enabled ballot behind position k.
  ghost predicate StaysBefore(c: Comparator, l: seq<Ballot>, k: nat, vote: Vote) {
    forall j :: k < j < |l| && l[j].enabled ==> Le(c, vote, l[j].vote)
  }

  // The cast disables an existing ballot in place.
  predicate InPlace(H: Hash, l: seq<Ballot>, reason: string, enabled: bool) { Find(H, l, reason) < |l| && !enabled }

  /** A cast keeps the order, except exactly when it disables a ballot in place with a vote that some enabled
      ballot behind it should precede. */
  lemma CastKeepsOrder(H: Hash, c: Comparator, l: seq<Ballot>, reason: string, vote: Vote, enabled: bool)
    requires c.Total() && Ordered(c, l)
    ensures Ordered(c, CastList(H, c, l, reason, vote, enabled)) <==>
      (InPlace(H, l, reason, enabled) ==> StaysBefore(c, l, Find(H, l, reason), vote))
  {
    var k := Find(H, l, reason);
    if k == |l| {
      AddedOrdered(c, l, Ballot(enabled, Stored(reason), H(reason), vote));
    } else if enabled {
      WithoutOrdered(c, l, k);
      AddedOrdered(c, Without(l, k), l[k].(enabled := true, vote := vote));
    } else {
      var r := CastList(H, c, l, reason, vote, enabled);
      hide Le, Find;
      if Ordered(c, r) {
        forall j | k < j < |l| && l[j].enabled ensures Le(c, vote, l[j].vote) {
          assert r[j] == l[j] && r[k].vote == vote;
        }
      }
    }
  }

  /** In particular it keeps the order whenever disabling does not move the vote later. */
  lemma SameOrEarlierKeepsOrder(H: Hash, c: Comparator, l: seq<Ballot>, reason: string, vote: Vote)
    requires c.Total() && Ordered(c, l) && InPlace(H, l, reason, false) && Le(c, vote, l[Find(H, l, reason)].vote)
    ensures Ordered(c, CastList(H, c, l, reason, vote, false))
  {
    var k := Find(H, l, reason);
    forall j | k < j < |l| && l[j].enabled ensures Le(c, vote, l[j].vote) {
      TotalOrder(c, vote, l[k].vote, l[j].vote);
    }
    CastKeepsOrder(H, c, l, reason, vote, false);
  }

  lemma RecastKeepsOrder(H: Hash, c: Comparator, l: seq<Ballot>, reason: string, enabled: bool)
    requires c.Total() && Ordered(c, l)
    ensures Ordered(c, RecastList(H, c, l, reason, enabled))
  {
    var k := Find(H, l, reason);
    if k < |l| {
      WithoutOrdered(c, l, k);
      AddedOrdered(c, Without(l, k), l[k].(enabled := enabled));
    }
  }

  // ----- the winner -----

  // Index of the first enabled ballot, or |l|.
  function First(l: seq<Ballot>): (k: nat)
    ensures k <= |l| && (k < |l| ==> l[k].enabled)
    ensures forall i :: 0 <= i < k ==> !l[i].enabled
  {
    if l == [] || l[0].enabled then 0 else 1 + First(l[1..])
  }

  ghost predicate Least(c: Comparator, l: seq<Ballot>, v: Vote) {
    forall i :: 0 <= i < |l| && l[i].enabled ==> Le(c, v, l[i].vote)
  }

  /** In an ordered list the first enabled ballot holds the least enabled vote. */
  lemma FirstIsLeast(c: Comparator, l: seq<Ballot>)
    requires c.Total() && Ordered(c, l) && First(l) < |l|
    ensures Least(c, l, l[First(l)].vote)
  {
    var k := First(l);
    TotalOrder(c, l[k].vote, l[k].vote, l[k].vote);
    hide Le, First;
    forall i | 0 <= i < |l| && l[i].enabled ensures Le(c, l[k].vote, l[i].vote) {
      if i != k { assert k < i; }
    }
  }

  // ----- whole runs -----

  datatype Op =
    | Cast(reason: string, vote: Vote, enabled: bool)
    | Recast(reason: string, enabled: bool)

  function Apply(H: Hash, c: Comparator, l: seq<Ballot>, op: Op): seq<Ballot> {
    match op
    case Cast(reason, vote, enabled) => CastList(H, c, l, reason, vote, enabled)
    case Recast(reason, enabled) => RecastList(H, c, l, reason, enabled)
  }

  function Run(H: Hash, c: Comparator, ops: seq<Op>): seq<Ballot> {
    if ops == [] then [] else Apply(H, c, Run(H, c, ops[..|ops| - 1]), ops[|ops| - 1])
  }

  // Disabling in place leaves the vote where it was in the order, or earlier.
  predicate NotLater(H: Hash, c: Comparator, l: seq<Ballot>, op: Op) {
    op.Cast? && InPlace(H, l, op.reason, op.enabled) ==> Le(c, op.vote, l[Find(H, l, op.reason)].vote)
  }

  ghost predicate Tame(H: Hash, c: Comparator, ops: seq<Op>) {
    forall n :: 0 <= n < |ops| ==> NotLater(H, c, Run(H, c, ops[..n]), ops[n])
  }

  /** Election order over whole runs: as long as disabling a ballot never moves its vote later in the
      comparator's order, the elected vote is the least enabled one. */
  lemma {:induction false} ElectsLeast(H: Hash, c: Comparator, ops: seq<Op>)
    requires c.Total() && Tame(H, c, ops)
    ensures Ordered(c, Run(H, c, ops))
    ensures var l := Run(H, c, ops); First(l) < |l| ==> Least(c, l, l[First(l)].vote)
  {
    if ops != [] {
      var n := |ops| - 1;
      var l, op := Run(H, c, ops[..n]), ops[n];
      assert Tame(H, c, ops[..n]) by {
        assert forall m :: 0 <= m < n ==> ops[..n][..m] == ops[..m] && ops[..n][m] == ops[m];
      }
      ElectsLeast(H, c, ops[..n]);
      assert NotLater(H, c, l, op);
      match op {
        case Cast(reason, vote, enabled) =>
          if InPlace(H, l, reason, enabled) {
            SameOrEarlierKeepsOrder(H, c, l, reason, vote);
          } else {
            CastKeepsOrder(H, c, l, reason, vote, enabled);
          }
        case Recast(reason, enabled) => RecastKeepsOrder(H, c, l, reason, enabled);
      }
    }
    if First(Run(H, c, ops)) < |Run(H, c, ops)| { FirstIsLeast(c, Run(H, c, ops)); }
  }

  /** Without that proviso it can fail: disabling A with vote 0 in place lets a later 3 in front of B's 5. */
  lemma DisabledVoteMisleads(H: Hash)
    ensures var l := Run(H, IntMax, [Cast("A", 10, true), Cast("B", 5, true), Cast("A", 0, false), Cast("C", 3, true)]);
      && First(l) < |l| && l[First(l)] == Ballot(true, "C", H("C"), 3) && Ballot(true, "B", H("B"), 5) in l
      && !Least(IntMax, l, 3)
  {
    var ops := [Cast("A", 10, true), Cast("B", 5, true), Cast("A", 0, false), Cast("C", 3, true)];
    var a, a0 := Ballot(true, "A", H("A"), 10), Ballot(false, "A", H("A"), 0);
    var b, d := Ballot(true, "B", H("B"), 5), Ballot(true, "C", H("C"), 3);
    MisleadingSteps(H);
    hide CastList;
    assert ops[..3][..2] == ops[..2] && ops[..2][..1] == ops[..1] && ops[..1][..0] == [];
    var l := Run(H, IntMax, ops);
    assert l == [d, a0, b] by {
      assert Run(H, IntMax, ops[..1]) == [a];
      assert Run(H, IntMax, ops[..2]) == [a, b];
      assert Run(H, IntMax, ops[..3]) == [a0, b];
    }
    FirstIs(l, 0);
    assert l[2] == b && !Le(IntMax, 3, 5);
  }

  lemma MisleadingSteps(H: Hash)
    ensures var a, a0 := Ballot(true, "A", H("A"), 10), Ballot(false, "A", H("A"), 0);
      var b, d := Ballot(true, "B", H("B"), 5), Ballot(true, "C", H("C"), 3);
      && CastList(H, IntMax, [], "A", 10, true) == [a] && CastList(H, IntMax, [a], "B", 5, true) == [a, b]
      && CastList(H, IntMax, [a, b], "A", 0, false) == [a0, b]
      && CastList(H, IntMax, [a0, b], "C", 3, true) == [d, a0, b]
  {
    var a, a0 := Ballot(true, "A", H("A"), 10), Ballot(false, "A", H("A"), 0);
    var b := Ballot(true, "B", H("B"), 5);
    assert Find(H, [], "A") == 0 && Find(H, [a], "B") == 1 && Find(H, [a, b], "A") == 0 && Find(H, [a0, b], "C") == 2;
    hide Find;
  }

  /** What least means by name: int_max elects the greatest int and int_min the least, but uint_max elects the
      least unsigned vote and uint_min the greatest. */
  lemma WinnerByName(c: Comparator, l: seq<Ballot>, v: Vote)
    requires c.Total()
    ensures Least(c, l, v) <==> forall b :: b in l && b.enabled ==>
      match c
      case IntMax => AsInt(v) >= AsInt(b.vote)
      case IntMin => AsInt(v) <= AsInt(b.vote)
      case UintMax => v <= b.vote
      case UintMin => v >= b.vote
  {
    assert forall i :: 0 <= i < |l| ==> l[i] in l;
  }

  lemma FirstIs(l: seq<Ballot>, w: nat)
    requires w < |l| && l[w].enabled && forall i :: 0 <= i < w ==> !l[i].enabled
    ensures First(l) == w
  {
    var k := First(l);
    hide First;
    assert k <= w;
  }

  /** A vote equal to the winner's does not displace it: among equals the one cast first wins. */
  lemma EqualVoteKeepsWinner(c: Comparator, l: seq<Ballot>, b: Ballot)
    requires c.Total() && Ordered(c, l) && First(l) < |l| && b.enabled && b.vote == l[First(l)].vote
    ensures var r := Added(c, l, b); First(r) < |r| && r[First(r)] == l[First(l)]
  {
    var w, k, r := First(l), Place(c, l, b.vote), Added(c, l, b);
    if k <= w {
      TotalOrder(c, b.vote, l[k].vote, b.vote);
    }
    hide First, Place, Le, Cmp;
    assert forall i :: 0 <= i < k ==> r[i] == l[i];
    FirstIs(r, w);
  }

  /** Under most_recent every enabling cast wins; under least_recent none displaces a winner of another reason. */
  lemma RecencyWinner(l: seq<Ballot>, b: Ballot)
    requires b.enabled
    ensures var r := Added(MostRecent, l, b); First(r) < |r| && r[First(r)] == b
    ensures First(l) < |l| ==> var r := Added(LeastRecent, l, b); First(r) < |r| && r[First(r)] == l[First(l)]
  {
    var r, w := Added(LeastRecent, l, b), First(l);
    assert Place(LeastRecent, l, b.vote) == |l|;
    assert r == l + [b];
    hide First;
    FirstIs(Added(MostRecent, l, b), 0);
    if w < |l| { FirstIs(r, w); }
  }

  // ----- exactly when the winner is least -----

  ghost predicate WinnerLeast(c: Comparator, l: seq<Ballot>) { First(l) < |l| ==> Least(c, l, l[First(l)].vote) }

  // The enabled ballots are in order among themselves.
  ghost predicate EnabledOrdered(c: Comparator, l: seq<Ballot>) {
    forall i, j :: 0 <= i < j < |l| && l[i].enabled && l[j].enabled ==> Le(c, l[i].vote, l[j].vote)
  }

  // The ballots an enabled vote of this reason is added to.
  function Others(H: Hash, l: seq<Ballot>, reason: string): seq<Ballot> {
    var k := Find(H, l, reason);
    if k == |l| then l else Without(l, k)
  }

  lemma EnabledFirstIsLeast(c: Comparator, l: seq<Ballot>)
    requires c.Total() && EnabledOrdered(c, l)
    ensures WinnerLeast(c, l)
  {
    var k := First(l);
    if k < |l| {
      TotalOrder(c, l[k].vote, l[k].vote, l[k].vote);
      hide Le, First;
      forall i | 0 <= i < |l| && l[i].enabled ensures Le(c, l[k].vote, l[i].vote) {
        if i != k { assert k < i; }
      }
    }
  }

  // An enabled vote lands behind the present winner, or may precede it, or there is none.
  predicate Fair(c: Comparator, l: seq<Ballot>, v: Vote) {
    var w := First(l);
    w == |l| || w < Place(c, l, v) || Le(c, v, l[w].vote)
  }

  // A vote placed behind the winner leaves it elected.
  lemma AddedBehind(c: Comparator, l: seq<Ballot>, b: Ballot)
    requires c.Total() && EnabledOrdered(c, l) && b.enabled && First(l) < Place(c, l, b.vote)
    ensures WinnerLeast(c, Added(c, l, b))
  {
    var w, r := First(l), Added(c, l, b);
    var k := AddedAt(c, l, b);
    EnabledFirstIsLeast(c, l);
    TotalOrder(c, b.vote, l[w].vote, l[w].vote);
    hide Added, Place, Le, Cmp, First;
    assert forall i :: 0 <= i < k ==> Shift(i, k) == i && r[i] == l[i];
    FirstIs(r, w);
    forall i | 0 <= i < |r| && r[i].enabled ensures Le(c, r[w].vote, r[i].vote) {
      if i != k { assert r[i] == l[Shift(i, k)]; }
    }
  }

  // A vote placed at or before the winner is elected.
  lemma AddedBefore(c: Comparator, l: seq<Ballot>, b: Ballot)
    requires c.Total() && EnabledOrdered(c, l) && b.enabled && Place(c, l, b.vote) <= First(l)
    ensures WinnerLeast(c, Added(c, l, b)) <==> First(l) == |l| || Le(c, b.vote, l[First(l)].vote)
  {
    var w, r := First(l), Added(c, l, b);
    var k := AddedAt(c, l, b);
    EnabledFirstIsLeast(c, l);
    TotalOrder(c, b.vote, b.vote, b.vote);
    hide Added, Place, Le, Cmp, First;
    assert forall i :: 0 <= i < k ==> Shift(i, k) == i && r[i] == l[i];
    FirstIs(r, k);
    if w < |l| { assert Shift(w + 1, k) == w && r[w + 1] == l[w]; }
    if w == |l| || Le(c, b.vote, l[w].vote) {
      forall i | 0 <= i < |r| && r[i].enabled ensures Le(c, b.vote, r[i].vote) {
        if i != k {
          assert r[i] == l[Shift(i, k)];
          TotalOrder(c, b.vote, l[w].vote, r[i].vote);
        }
      }
    }
  }

  lemma AddedElectsLeast(c: Comparator, l: seq<Ballot>, b: Ballot)
    requires c.Total() && EnabledOrdered(c, l) && b.enabled
    ensures WinnerLeast(c, Added(c, l, b)) <==> Fair(c, l, b.vote)
  {
    hide WinnerLeast, EnabledOrdered, Added, Le;
    if First(l) < Place(c, l, b.vote) { AddedBehind(c, l, b); } else { AddedBefore(c, l, b); }
  }

  /** While the enabled ballots are in order among themselves, a cast leaves the least enabled vote elected,
      except exactly when it enables a vote that is placed at or before the present winner although it
      compares above it, as happens behind a disabled ballot that compares still higher. */
  lemma CastElectsLeast(H: Hash, c: Comparator, l: seq<Ballot>, reason: string, vote: Vote, enabled: bool)
    requires c.Total() && EnabledOrdered(c, l)
    ensures WinnerLeast(c, CastList(H, c, l, reason, vote, enabled)) <==>
      (enabled ==> Fair(c, Others(H, l, reason), vote))
  {
    var k, r := Find(H, l, reason), CastList(H, c, l, reason, vote, enabled);
    if !enabled {
      CastKeepsEnabledOrder(H, c, l, reason, vote, enabled);
      EnabledFirstIsLeast(c, r);
    } else if k == |l| {
      AddedElectsLeast(c, l, Ballot(enabled, Stored(reason), H(reason), vote));
    } else {
      WithoutEnabledOrdered(c, l, k);
      AddedElectsLeast(c, Without(l, k), l[k].(enabled := true, vote := vote));
    }
  }

  lemma WithoutEnabledOrdered(c: Comparator, l: seq<Ballot>, k: nat)
    requires EnabledOrdered(c, l) && k < |l|
    ensures EnabledOrdered(c, Without(l, k))
  {
    var r := Without(l, k);
    assert forall i :: 0 <= i < |r| ==> r[i] == l[if i < k then i else i + 1];
    hide Without, Le;
  }

  // The vote precedes every enabled ballot from position k on.
  ghost predicate Precedes(c: Comparator, l: seq<Ballot>, k: nat, vote: Vote) {
    forall j :: k <= j < |l| && l[j].enabled ==> Le(c, vote, l[j].vote)
  }

  lemma AddedEnabledOrdered(c: Comparator, l: seq<Ballot>, b: Ballot)
    requires c.Total() && EnabledOrdered(c, l)
    ensures EnabledOrdered(c, Added(c, l, b)) <==> (b.enabled ==> Precedes(c, l, Place(c, l, b.vote), b.vote))
  {
    var r := Added(c, l, b);
    var k := AddedAt(c, l, b);
    hide Added;
    if b.enabled {
      forall i | 0 <= i < k ensures Le(c, l[i].vote, b.vote) { TotalOrder(c, b.vote, l[i].vote, b.vote); }
    }
    hide Place, Le, Cmp;
    if EnabledOrdered(c, r) && b.enabled {
      forall j | k <= j < |l| && l[j].enabled ensures Le(c, b.vote, l[j].vote) {
        assert Shift(j + 1, k) == j && r[j + 1] == l[j];
      }
    }
    if b.enabled ==> Precedes(c, l, k, b.vote) {
      forall i, j | 0 <= i < j < |r| && r[i].enabled && r[j].enabled ensures Le(c, r[i].vote, r[j].vote) {
        var i0, j0 := Shift(i, k), Shift(j, k);
        assert i != k ==> r[i] == l[i0];
        assert j != k ==> r[j] == l[j0];
      }
    }
  }

  /** The enabled ballots stay in order among themselves, except exactly when an enabled vote is placed before
      an enabled ballot it compares above. */
  lemma CastKeepsEnabledOrder(H: Hash, c: Comparator, l: seq<Ballot>, reason: string, vote: Vote, enabled: bool)
    requires c.Total() && EnabledOrdered(c, l)
    ensures var m := Others(H, l, reason);
      EnabledOrdered(c, CastList(H, c, l, reason, vote, enabled))
      <==> (enabled ==> Precedes(c, m, Place(c, m, vote), vote))
  {
    var k := Find(H, l, reason);
    if k == |l| {
      AddedEnabledOrdered(c, l, Ballot(enabled, Stored(reason), H(reason), vote));
    } else if enabled {
      WithoutEnabledOrdered(c, l, k);
      AddedEnabledOrdered(c, Without(l, k), l[k].(enabled := true, vote := vote));
    } else {
      var r := CastList(H, c, l, reason, vote, enabled);
      assert forall i :: 0 <= i < |l| && i != k ==> r[i] == l[i];
      hide CastList, Le;
    }
  }

  // ----- one ballot per reason -----

  ghost predicate DistinctReasons(l: seq<Ballot>) {
    forall i, j :: 0 <= i < j < |l| ==> l[i].reason != l[j].reason
  }

  predicate Unstored(l: seq<Ballot>, reason: string) { forall i :: 0 <= i < |l| ==> l[i].reason != reason }

  lemma AddedDistinct(c: Comparator, l: seq<Ballot>, b: Ballot)
    requires DistinctReasons(l)
    ensures DistinctReasons(Added(c, l, b)) <==> Unstored(l, b.reason)
  {
    var k := AddedAt(c, l, b);
    var r := Added(c, l, b);
    hide Added;
    if DistinctReasons(r) {
      forall i | 0 <= i < |l| ensures l[i].reason != b.reason {
        var g := if i < k then i else i + 1;
        assert Shift(g, k) == i && r[g] == l[i];
      }
    }
    if Unstored(l, b.reason) {
      forall i, j | 0 <= i < j < |r| ensures r[i].reason != r[j].reason {
        var i0, j0 := Shift(i, k), Shift(j, k);
        assert i != k ==> r[i] == l[i0];
        assert j != k ==> r[j] == l[j0];
      }
    }
  }

  lemma WithoutDistinct(l: seq<Ballot>, k: nat)
    requires DistinctReasons(l) && k < |l|
    ensures DistinctReasons(Without(l, k)) && Unstored(Without(l, k), l[k].reason)
  {
    var r := Without(l, k);
    assert forall i :: 0 <= i < |r| ==> r[i] == l[if i < k then i else i + 1];
  }

  /** Each stored reason keeps one ballot exactly when the cast finds its ballot or no ballot stores the same
      reason. A ballot is found by its stored reason and the hash of its whole reason, so one of a truncated
      reason is missed both by its own reason and by its truncation. */
  lemma CastKeepsDistinct(H: Hash, c: Comparator, l: seq<Ballot>, reason: string, vote: Vote, enabled: bool)
    requires DistinctReasons(l)
    ensures DistinctReasons(CastList(H, c, l, reason, vote, enabled)) <==>
      Find(H, l, reason) < |l| || Unstored(l, Stored(reason))
  {
    var k := Find(H, l, reason);
    hide Find, Added, Without, Stored, Unstored;
    if k == |l| {
      AddedDistinct(c, l, Ballot(enabled, Stored(reason), H(reason), vote));
    } else if enabled {
      WithoutDistinct(l, k);
      AddedDistinct(c, Without(l, k), l[k].(enabled := true, vote := vote));
    } else {
      var r := CastList(H, c, l, reason, vote, enabled);
      assert forall i :: 0 <= i < |l| ==> r[i].reason == l[i].reason;
    }
  }

  /** Two ways to get two ballots that store the same reason: casting one too long to store twice, and casting
      its truncation after it, unless their hashes collide. */
  lemma LongReasonsRepeat(H: Hash, c: Comparator, long: string, v: Vote, w: Vote, enabled: bool)
    requires |long| >= MAX_REASON_LEN
    ensures var l := CastList(H, c, [], long, v, true);
      var cut := Stored(long);
      && |cut| < MAX_REASON_LEN && l == [Ballot(true, cut, H(long), v)]
      && !DistinctReasons(CastList(H, c, l, long, w, enabled))
      && (DistinctReasons(CastList(H, c, l, cut, w, enabled)) <==> H(cut) == H(long))
  {
    var l, cut := CastList(H, c, [], long, v, true), Stored(long);
    assert l == [Ballot(true, cut, H(long), v)];
    assert l[0].reason == cut;
    assert Stored(cut) == cut && cut != long && DistinctReasons(l) && !Unstored(l, cut);
    CastKeepsDistinct(H, c, l, long, w, enabled);
    CastKeepsDistinct(H, c, l, cut, w, enabled);
    assert l[0].reason == cut && l[0].hash == H(long);
    hide CastList, DistinctReasons;
  }

  // Every ballot stores its whole reason.
  ghost predicate Whole(H: Hash, l: seq<Ballot>) {
    forall i :: 0 <= i < |l| ==> l[i].hash == H(l[i].reason)
  }

  predicate Short(op: Op) { |op.reason| < MAX_REASON_LEN }

  lemma AddedWhole(H: Hash, c: Comparator, l: seq<Ballot>, b: Ballot)
    requires Whole(H, l) && b.hash == H(b.reason)
    ensures Whole(H, Added(c, l, b))
  {
    var k := AddedAt(c, l, b);
    hide Added;
  }

  lemma ApplyShort(H: Hash, c: Comparator, l: seq<Ballot>, op: Op)
    requires Whole(H, l) && DistinctReasons(l) && Short(op)
    ensures Whole(H, Apply(H, c, l, op)) && DistinctReasons(Apply(H, c, l, op))
  {
    var k := Find(H, l, op.reason);
    assert k == |l| ==> Unstored(l, op.reason);
    if k < |l| { WithoutDistinct(l, k); }
    match op {
      case Cast(reason, vote, enabled) =>
        CastKeepsDistinct(H, c, l, reason, vote, enabled);
        if k == |l| {
          AddedWhole(H, c, l, Ballot(enabled, reason, H(reason), vote));
        } else if enabled {
          AddedWhole(H, c, Without(l, k), l[k].(enabled := true, vote := vote));
        }
      case Recast(reason, enabled) =>
        if k < |l| {
          AddedDistinct(c, Without(l, k), l[k].(enabled := enabled));
          AddedWhole(H, c, Without(l, k), l[k].(enabled := enabled));
        }
    }
  }

  /** Over every run of casts and recasts with reasons short enough to store, each reason has one ballot. */
  lemma {:induction false} ShortReasonsOneBallot(H: Hash, c: Comparator, ops: seq<Op>)
    requires forall n :: 0 <= n < |ops| ==> Short(ops[n])
    ensures Whole(H, Run(H, c, ops)) && DistinctReasons(Run(H, c, ops))
  {
    if ops != [] {
      hide Apply, Whole, DistinctReasons;
      ShortReasonsOneBallot(H, c, ops[..|ops| - 1]);
      ApplyShort(H, c, Run(H, c, ops[..|ops| - 1]), ops[|ops| - 1]);
    }
  }
}
