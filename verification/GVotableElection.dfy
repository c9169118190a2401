/**
An election with its ballot list and cached result: casting, recasting, defaults,
and rerunning the election with a callback on change.
*/
module GVotableElection {
  import opened GVotableOrder

  datatype Error = OK | EINVAL | ENOMEM

  datatype Outcome = NoResult | Elected(reason: string, vote: Vote)

  // The outcome is that of the enabled ballot which no enabled one is listed before, a bool
  // election electing 1; with no ballot enabled, it is the default if in use, or none.
  ghost predicate Chosen(votes: seq<Ballot>, isBool: bool, hasDefault: int, defaultVote: Vote, o: Outcome) {
    if exists b :: b in votes && b.enabled then
      exists k :: 0 <= k < |votes| && votes[k].enabled && (forall j :: 0 <= j < k ==> !votes[j].enabled)
                  && o == Elected(votes[k].reason, if isBool then 1 else votes[k].vote)
    else o == if hasDefault == 1 then Elected(DEFAULT_REASON, defaultVote) else NoResult
  }

  // The outcome from nothing: the first enabled ballot, else the default, else none.
  function Evaluate(votes: seq<Ballot>, isBool: bool, hasDefault: int, defaultVote: Vote): (o: Outcome)
    ensures Chosen(votes, isBool, hasDefault, defaultVote, o)
  {
    var k := First(votes);
    if k < |votes| then Elected(votes[k].reason, if isBool then 1 else votes[k].vote)
    else if hasDefault == 1 then Elected(DEFAULT_REASON, defaultVote)
    else NoResult
  }

  class Election {
    const cmp: Comparator
    const isBool: bool
    const hasCallback: bool
    const hash: Hash
    var votes: seq<Ballot>
    var result: Vote
    var reason: string
    var valid: bool
    var defaultVote: Vote
    var hasDefault: int // -1 never set, 0 not used, 1 used
    var forced: bool

    ghost predicate Valid() { isBool ==> cmp.MostRecent? }

    ghost function Cached(): Outcome
      reads this
    {
      if valid then Elected(reason, result) else NoResult
    }

    ghost function Fresh(): Outcome
      reads this
    {
      Evaluate(votes, isBool, hasDefault, defaultVote)
    }

    // Whether a rerun from outcome o asks for the callback: when the outcome changed, and
    // under a comparator of recency, which calls no two votes equal, always.
    ghost predicate Notifies(o: Outcome)
      reads this
    {
      !forced && hasCallback && (Cached() != o || (!cmp.Total() && Cached() != NoResult))
    }

    // gvotable_create_election, and gvotable_create_bool_election, which starts with the
    // default 0 in use and elected
    constructor (cmp: Comparator, isBool: bool, hasCallback: bool, hash: Hash)
      requires isBool ==> cmp.MostRecent?
      ensures Valid() && votes == [] && !forced
      ensures hasDefault == (if isBool then 1 else -1) && defaultVote == 0
      ensures Cached() == Fresh() == if isBool then Elected(DEFAULT_REASON, 0) else NoResult
      ensures this.cmp == cmp && this.isBool == isBool && this.hasCallback == hasCallback && this.hash == hash
    {
      this.cmp, this.isBool, this.hasCallback, this.hash := cmp, isBool, hasCallback, hash;
      votes, result, reason, valid := [], 0, if isBool then DEFAULT_REASON else "", isBool;
      defaultVote, hasDefault, forced := 0, if isBool then 1 else -1, false;
    }

    // The cached outcome becomes (r, v), v being compared as c; whether it changed.
    method Update(r: string, v: Vote, c: Vote) returns (changed: bool)
      requires Valid() && (isBool || v == c)
      modifies `result, `reason, `valid
      ensures Cached() == Elected(r, v)
      ensures changed <==> old(Cached()) != Cached() || !cmp.Total()
    {
      TotalOrder(if cmp.Total() then cmp else IntMin, result, c, c);
      changed := false;
      if !valid || reason != r {
        reason := r;
        changed := true;
      }
      if changed || Cmp(cmp, result, c) != 0 {
        result := v;
        changed := true;
      }
      valid := true;
    }

    /** gvotable_internal_run_election: unless a result is forced, the cached outcome becomes the outcome from
        scratch, and the callback is asked for exactly when that is a change (or always, under recency). */
    method Rerun() returns (callback: bool)
      requires Valid()
      modifies `result, `reason, `valid
      ensures forced ==> unchanged(this)
      ensures !forced ==> Cached() == Fresh() && Chosen(votes, isBool, hasDefault, defaultVote, Cached())
      ensures callback <==> Notifies(old(Cached()))
    {
      if forced { return false; }
      var i := 0;
      while i < |votes|
        invariant i <= |votes| && forall j :: 0 <= j < i ==> !votes[j].enabled
        invariant unchanged(this)
      {
        if votes[i].enabled {
          FirstIs(votes, i);
          callback := Update(votes[i].reason, if isBool then 1 else votes[i].vote, votes[i].vote);
          return callback && hasCallback;
        }
        i := i + 1;
      }
      if hasDefault == 1 {
        callback := Update(DEFAULT_REASON, defaultVote, defaultVote);
      } else {
        callback, valid, reason := valid, false, "";
      }
      return callback && hasCallback;
    }

    /** gvotable_run_election: also calls back on request, and with a forced result always. */
    method RunElection(force: bool) returns (called: bool)
      requires Valid()
      modifies `result, `reason, `valid
      ensures forced ==> unchanged(this)
      ensures !forced ==> Cached() == Fresh()
      ensures called <==> hasCallback && (forced || force || Notifies(old(Cached())))
    {
      var callback := Rerun();
      if !hasCallback { return false; }
      if forced { return true; }
      return callback || force;
    }

    // gvotable_ballot_find_internal
    method FindBallot(name: string) returns (k: nat)
      ensures k == Find(hash, votes, name)
    {
      k := 0;
      while k < |votes| && !Matches(hash, votes[k], name)
        invariant k <= |votes| && forall j :: 0 <= j < k ==> !Matches(hash, votes[j], name)
      {
        k := k + 1;
      }
    }

    // gvotable_add_ballot
    method AddBallot(b: Ballot)
      modifies `votes
      ensures votes == Added(cmp, old(votes), b)
    {
      var k := |votes|;
      if b.enabled {
        k := 0;
        while k < |votes| && Cmp(cmp, b.vote, votes[k].vote) >= 0
          invariant k <= |votes| && forall j :: 0 <= j < k ==> Cmp(cmp, b.vote, votes[j].vote) >= 0
        {
          k := k + 1;
        }
        assert k == Place(cmp, votes, b.vote);
      }
      votes := votes[..k] + [b] + votes[k..];
    }

    /** gvotable_cast_vote. A refused cast changes nothing; an accepted one updates the ballot list and leaves
        the cached outcome equal to the outcome from scratch. */
    method Cast(name: string, vote: Vote, enabled: bool, alloc: bool) returns (err: Error, callback: bool)
      requires Valid()
      modifies `votes, `result, `reason, `valid
      ensures err == (if name == "" then EINVAL
                      else if Find(hash, old(votes), name) == |old(votes)| && !alloc then ENOMEM
                      else OK)
      ensures err != OK ==> unchanged(this) && !callback
      ensures err == OK ==>
        votes == CastList(hash, cmp, old(votes), name, if isBool then (if enabled then 1 else 0) else vote, enabled)
      ensures err == OK ==> (if forced then Cached() == old(Cached()) else Cached() == Fresh())
      ensures err == OK ==> (callback <==> Notifies(old(Cached())))
    {
      if name == "" { return EINVAL, false; }
      var k := FindBallot(name);
      var v := if isBool then (if enabled then 1 else 0) else vote;
      if k == |votes| {
        if !alloc { return ENOMEM, false; }
        AddBallot(Ballot(enabled, Stored(name), hash(name), v));
      } else if enabled {
        var b := votes[k];
        votes := Without(votes, k);
        AddBallot(b.(enabled := true, vote := v));
      } else {
        votes := votes[k := votes[k].(enabled := false, vote := v)];
      }
      err := OK;
      callback := Rerun();
    }

    /** gvotable_recast_ballot. */
    method Recast(name: string, enabled: bool) returns (err: Error, callback: bool)
      requires Valid()
      modifies `votes, `result, `reason, `valid
      ensures err == (if Find(hash, old(votes), name) == |old(votes)| then EINVAL else OK)
      ensures err != OK ==> unchanged(this) && !callback
      ensures err == OK ==> votes == RecastList(hash, cmp, old(votes), name, enabled)
      ensures err == OK ==> (if forced then Cached() == old(Cached()) else Cached() == Fresh())
      ensures err == OK ==> (callback <==> Notifies(old(Cached())))
    {
      var k := FindBallot(name);
      if k == |votes| { return EINVAL, false; }
      var b := votes[k];
      votes := Without(votes, k);
      AddBallot(b.(enabled := enabled));
      err := OK;
      callback := Rerun();
    }

    /** gvotable_use_default. */
    method UseDefault(enabled: bool) returns (err: Error, callback: bool)
      requires Valid()
      modifies `hasDefault, `result, `reason, `valid
      ensures err == (if isBool then EINVAL else OK)
      ensures err != OK ==> unchanged(this) && !callback
      ensures err == OK ==> hasDefault == (if enabled then 1 else 0)
      ensures err == OK ==> (if forced then Cached() == old(Cached()) else Cached() == Fresh())
      ensures err == OK ==> (callback <==> Notifies(old(Cached())))
    {
      if isBool { return EINVAL, false; }
      hasDefault := if enabled then 1 else 0;
      err := OK;
      callback := Rerun();
    }

    /** gvotable_set_default. A current outcome stays current exactly when a default was in use before or some
        ballot is enabled: the first default is stored without rerunning the election. */
    method SetDefault(vote: Vote) returns (err: Error, callback: bool)
      requires Valid()
      modifies `hasDefault, `defaultVote, `result, `reason, `valid
      ensures err == (if isBool then EINVAL else OK)
      ensures err != OK ==> unchanged(this) && !callback
      ensures err == OK ==> hasDefault == 1 && defaultVote == vote
      ensures err == OK && forced ==> Cached() == old(Cached()) && !callback
      ensures err == OK && !forced && old(Cached() == Fresh()) ==>
        (Cached() == Fresh() <==> old(hasDefault) == 1 || First(votes) < |votes|)
      ensures err == OK && callback ==> Notifies(old(Cached()))
      ensures err == OK && cmp.Total() ==> (callback <==> Notifies(old(Cached())))
    {
      if isBool { return EINVAL, false; }
      var changed := hasDefault == 1 && defaultVote != vote;
      defaultVote := vote;
      err, callback := OK, false;
      if changed { callback := Rerun(); }
      hasDefault := 1;
    }
  }
}
