/** The room's ballots and how they are counted. Ballots are kept as the server's
    Map from voter socket id to voted-for player id, in insertion order. */
module Votes {
  import opened Types
  import opened OrderedMaps

  /** voter socket id -> id of the player voted for */
  type Ballots = OMap<string, string>

  /** The position of the first ballot cast for `t`, or -1 when nobody voted for it. */
  function FirstVote(votes: Ballots, t: string): (i: int)
    ensures -1 <= i < |votes|
    ensures 0 <= i ==> votes[i].1 == t
  {
    if votes == [] then -1
    else if votes[0].1 == t then 0
    else
      var j := FirstVote(votes[1..], t);
      if j == -1 then -1 else j + 1
  }

  /** No ballot before the first vote for `t` is for `t`, and none at all when
      nobody voted for it. */
  lemma {:induction false} FirstVoteIsFirst(votes: Ballots, t: string)
    ensures forall k :: 0 <= k < |votes| && (FirstVote(votes, t) == -1 || k < FirstVote(votes, t)) ==> votes[k].1 != t
  {
    if votes != [] && votes[0].1 != t {
      FirstVoteIsFirst(votes[1..], t);
      forall k | 0 < k < |votes|
        ensures votes[k].1 == votes[1..][k - 1].1
      {
      }
    }
  }

  /** The number of ballots cast for `t`. */
  function Count(votes: Ballots, t: string): (n: nat)
    ensures n > 0 <==> FirstVote(votes, t) >= 0
    ensures n <= |votes|
  {
    if votes == [] then 0
    else
      var init := votes[..|votes| - 1];
      FirstVoteOfInit(votes, t);
      Count(init, t) + (if votes[|votes| - 1].1 == t then 1 else 0)
  }

  /** Dropping the last ballot keeps every first vote that happened before it. */
  lemma {:induction false} FirstVoteOfInit(votes: Ballots, t: string)
    requires votes != []
    ensures var init := votes[..|votes| - 1];
      FirstVote(votes, t) == if FirstVote(init, t) >= 0 then FirstVote(init, t)
                             else if votes[|votes| - 1].1 == t then |votes| - 1 else -1
  {
    var init := votes[..|votes| - 1];
    var f := FirstVote(init, t);
    FirstVoteIsFirst(init, t);
    FirstVoteIsFirst(votes, t);
    if f >= 0 {
      assert votes[f] == init[f];
    }
  }

  /** Count unfolded at the last ballot. */
  lemma {:induction false} CountSnoc(votes: Ballots, t: string)
    requires votes != []
    ensures Count(votes, t) == Count(votes[..|votes| - 1], t) + (if votes[|votes| - 1].1 == t then 1 else 0)
  {
  }

  /** What the server's vote-count Map holds after counting `votes`: the first
      forEach loop, `voteCounts.set(id, (voteCounts.get(id) || 0) + 1)` per ballot. */
  function CountsOf(votes: Ballots): (m: OMap<string, nat>)
    ensures Distinct(m)
    ensures forall j :: 0 <= j < |m| ==> m[j].1 > 0
  {
    if votes == [] then []
    else
      var m := CountsOf(votes[..|votes| - 1]);
      var t := votes[|votes| - 1].1;
      Set(m, t, GetOrZero(m, t) + 1)
  }

  /** `voteCounts.get(id) || 0`: the count so far, 0 for a target not yet seen. */
  function GetOrZero(m: OMap<string, nat>, t: string): (n: nat) {
    match Get(m, t)
    case Some(n) => n
    case None => 0
  }

  /** The count Map has an entry for exactly the targets that received a vote. */
  lemma {:induction false} CountsOfKeys(votes: Ballots, t: string)
    ensures HasKey(CountsOf(votes), t) <==> Count(votes, t) > 0
  {
    if votes != [] {
      var init := votes[..|votes| - 1];
      CountsOfKeys(init, t);
      CountSnoc(votes, t);
      var m := CountsOf(init);
      var last := votes[|votes| - 1].1;
      var next := Set(m, last, GetOrZero(m, last) + 1);
      assert CountsOf(votes) == next;
      assert HasKey(next, t) <==> t == last || HasKey(m, t);
      assert Count(votes, t) == Count(init, t) + (if last == t then 1 else 0);
    }
  }

  /** Each entry of the count Map holds the number of ballots for its target. */
  lemma {:induction false} CountsOfValues(votes: Ballots)
    ensures forall j :: 0 <= j < |CountsOf(votes)| ==> CountsOf(votes)[j].1 == Count(votes, CountsOf(votes)[j].0)
  {
    if votes != [] {
      var init := votes[..|votes| - 1];
      CountsOfValues(init);
      var m := CountsOf(init);
      var last := votes[|votes| - 1].1;
      var seen := GetOrZero(m, last);
      var next := CountsOf(votes);
      assert next == Set(m, last, seen + 1);
      forall j | 0 <= j < |next|
        ensures next[j].1 == Count(votes, next[j].0)
      {
        CountSnoc(votes, next[j].0);
        if HasKey(m, last) {
          CountsValueKnown(m, last, seen, j);
        } else {
          CountsOfKeys(init, last);
          if j == |m| {
            assert next[j] == (last, 1);
          } else {
            assert next[j] == m[j];
            assert m[j].0 != last;
          }
        }
      }
    }
  }

  /** CountsOfValues for a target already in the Map: only its own entry grows. */
  lemma {:induction false} CountsValueKnown(m: OMap<string, nat>, last: string, seen: nat, j: nat)
    requires Distinct(m) && HasKey(m, last) && seen == GetOrZero(m, last) && j < |m|
    ensures var next := Set(m, last, seen + 1);
      next[j] == if m[j].0 == last then (last, m[j].1 + 1) else m[j]
  {
  }

  /** The entries of `m` are listed in the order in which their targets first
      received a vote in `votes`. */
  predicate InFirstVoteOrder(votes: Ballots, m: OMap<string, nat>) {
    && (forall i :: 0 <= i < |m| ==> 0 <= FirstVote(votes, m[i].0))
    && (forall i, j :: 0 <= i < j < |m| ==> FirstVote(votes, m[i].0) < FirstVote(votes, m[j].0))
  }

  /** The count Map lists its targets in the order in which each first received a
      vote. */
  lemma {:induction false} CountsOfOrder(votes: Ballots)
    ensures InFirstVoteOrder(votes, CountsOf(votes))
  {
    if votes != [] {
      CountsOfOrder(votes[..|votes| - 1]);
      CountsOfOrderStep(votes);
    } else {
      assert CountsOf(votes) == [];
    }
  }

  /** CountsOfOrder carried over one more ballot. */
  lemma {:induction false} CountsOfOrderStep(votes: Ballots)
    requires votes != [] && InFirstVoteOrder(votes[..|votes| - 1], CountsOf(votes[..|votes| - 1]))
    ensures InFirstVoteOrder(votes, CountsOf(votes))
  {
    var next := CountsOf(votes);
    forall i | 0 <= i < |next|
      ensures 0 <= FirstVote(votes, next[i].0)
    {
      if i < |CountsOf(votes[..|votes| - 1])| {
        OldEntryKeepsFirstVote(votes, i);
      } else {
        NewEntryVotedLast(votes);
      }
    }
    forall i, j | 0 <= i < j < |next|
      ensures FirstVote(votes, next[i].0) < FirstVote(votes, next[j].0)
    {
      PairInOrder(votes, i, j);
    }
  }

  /** CountsOfOrderStep for one pair of entries. */
  lemma {:induction false} PairInOrder(votes: Ballots, i: nat, j: nat)
    requires votes != [] && InFirstVoteOrder(votes[..|votes| - 1], CountsOf(votes[..|votes| - 1]))
    requires i < j < |CountsOf(votes)|
    ensures 0 <= FirstVote(votes, CountsOf(votes)[i].0) < FirstVote(votes, CountsOf(votes)[j].0)
  {
    if j < |CountsOf(votes[..|votes| - 1])| {
      OldPairInOrder(votes, i, j);
    } else {
      NewEntryVotedLast(votes);
      OldEntryKeepsFirstVote(votes, i);
    }
  }

  /** Two entries already in the count Map before the last ballot stay in first-vote
      order. */
  lemma {:induction false} OldPairInOrder(votes: Ballots, i: nat, j: nat)
    requires votes != [] && InFirstVoteOrder(votes[..|votes| - 1], CountsOf(votes[..|votes| - 1]))
    requires i < j < |CountsOf(votes[..|votes| - 1])|
    ensures 0 <= FirstVote(votes, CountsOf(votes)[i].0) < FirstVote(votes, CountsOf(votes)[j].0)
  {
    OldEntryKeepsFirstVote(votes, i);
    OldEntryKeepsFirstVote(votes, j);
  }

  /** One more ballot keeps every entry of the count Map in place and appends an
      entry exactly when the ballot's target is new. */
  lemma {:induction false} CountsOfGrows(votes: Ballots)
    requires votes != []
    ensures var m := CountsOf(votes[..|votes| - 1]);
      var next := CountsOf(votes);
      var last := votes[|votes| - 1].1;
      && (forall k :: 0 <= k < |m| ==> next[k].0 == m[k].0)
      && (HasKey(m, last) ==> |next| == |m|)
      && (!HasKey(m, last) ==> |next| == |m| + 1 && next[|m|].0 == last)
  {
    var m := CountsOf(votes[..|votes| - 1]);
    var last := votes[|votes| - 1].1;
    assert CountsOf(votes) == Set(m, last, GetOrZero(m, last) + 1);
  }

  /** An entry already in the count Map before the last ballot stays where it is, and
      its target keeps its first vote, which comes before the last ballot. */
  lemma {:induction false} OldEntryKeepsFirstVote(votes: Ballots, k: nat)
    requires votes != [] && k < |CountsOf(votes[..|votes| - 1])|
    ensures var init := votes[..|votes| - 1];
      var t := CountsOf(init)[k].0;
      && k < |CountsOf(votes)| && CountsOf(votes)[k].0 == t
      && 0 <= FirstVote(votes, t) == FirstVote(init, t) < |init|
  {
    var init := votes[..|votes| - 1];
    var m := CountsOf(init);
    var t := m[k].0;
    CountsOfGrows(votes);
    assert HasKey(m, t);
    CountsOfKeys(init, t);
    FirstVoteOfInit(votes, t);
  }

  /** When the last ballot adds an entry to the count Map, it is the only new entry
      and its target first received a vote at that ballot. */
  lemma {:induction false} NewEntryVotedLast(votes: Ballots)
    requires votes != [] && |CountsOf(votes)| > |CountsOf(votes[..|votes| - 1])|
    ensures var n := |CountsOf(votes[..|votes| - 1])|;
      && |CountsOf(votes)| == n + 1
      && FirstVote(votes, CountsOf(votes)[n].0) == |votes| - 1
  {
    var init := votes[..|votes| - 1];
    var last := votes[|votes| - 1].1;
    CountsOfGrows(votes);
    CountsOfKeys(init, last);
    FirstVoteOfInit(votes, last);
  }

  /** The position of the first entry with the most votes: the second forEach loop,
      which replaces the leader only on a strictly greater count. */
  function LeaderOf(m: OMap<string, nat>): (i: nat)
    requires m != []
    ensures i < |m|
    decreases |m|
  {
    if |m| == 1 then 0
    else
      var i := LeaderOf(m[..|m| - 1]);
      if m[|m| - 1].1 > m[i].1 then |m| - 1 else i
  }

  /** LeaderOf picks an entry with the highest count, and every entry before it has
      a strictly lower count. */
  lemma {:induction false} LeaderIsFirstMaximum(m: OMap<string, nat>)
    requires m != []
    ensures forall j :: 0 <= j < |m| ==> m[j].1 <= m[LeaderOf(m)].1
    ensures forall j :: 0 <= j < LeaderOf(m) ==> m[j].1 < m[LeaderOf(m)].1
    decreases |m|
  {
    if |m| > 1 {
      var init := m[..|m| - 1];
      LeaderIsFirstMaximum(init);
      assert forall j :: 0 <= j < |init| ==> init[j] == m[j];
    }
  }

  /** The id voted out once every ballot is in: the leader of the count Map, or None
      when there are no ballots (the server's `votedOutPlayerId` stays null). */
  function Winner(votes: Ballots): (votedOut: Option<string>) {
    var m := CountsOf(votes);
    if m == [] then None else Some(m[LeaderOf(m)].0)
  }

  /** An independent statement of who is voted out: a target with the most votes,
      and of all targets with that many votes the one voted for first. */
  ghost predicate IsPlurality(votes: Ballots, w: string) {
    && Count(votes, w) > 0
    && (forall t :: Count(votes, t) <= Count(votes, w))
    && (forall t :: t != w && Count(votes, t) == Count(votes, w) ==> FirstVote(votes, w) < FirstVote(votes, t))
  }

  /** Winner names someone exactly when there is a ballot, and then it is the
      plurality target with ties going to the target voted for first; conversely the
      plurality target is what Winner gives. */
  lemma {:induction false} WinnerIsPlurality(votes: Ballots, w: string)
    ensures Winner(votes).None? <==> votes == []
    ensures Winner(votes) == Some(w) <==> IsPlurality(votes, w)
  {
    var m := CountsOf(votes);
    if votes != [] {
      CountsOfKeys(votes, votes[0].1);
      assert Count(votes, votes[0].1) > 0;
    }
    if m != [] {
      LeaderIsFirstMaximum(m);
      CountsOfValues(votes);
      CountsOfOrder(votes);
      var l := LeaderOf(m);
      var lw := m[l].0;
      forall t | Count(votes, t) > 0
        ensures Count(votes, t) <= Count(votes, lw)
        ensures t != lw && Count(votes, t) == Count(votes, lw) ==> FirstVote(votes, lw) < FirstVote(votes, t)
      {
        CountsOfKeys(votes, t);
        var j :| 0 <= j < |m| && m[j].0 == t;
        if t != lw && Count(votes, t) == Count(votes, lw) {
          assert !(j < l);
          assert j != l;
        }
      }
      assert IsPlurality(votes, lw);
      if IsPlurality(votes, w) && w != lw {
        assert false;
      }
    }
  }

  /** CountsOf unfolded at ballot `i` of a longer list. */
  lemma {:induction false} CountsOfPrefixStep(votes: Ballots, i: nat)
    requires i < |votes|
    ensures var m := CountsOf(votes[..i]);
      CountsOf(votes[..i + 1]) == Set(m, votes[i].1, GetOrZero(m, votes[i].1) + 1)
  {
    var p := votes[..i + 1];
    assert p[..|p| - 1] == votes[..i];
    assert p[|p| - 1] == votes[i];
  }

  /** LeaderOf unfolded at entry `j` of a longer map. */
  lemma {:induction false} LeaderOfPrefixStep(m: OMap<string, nat>, j: nat)
    requires 0 < j < |m|
    ensures var l := LeaderOf(m[..j]);
      LeaderOf(m[..j + 1]) == if m[j].1 > m[l].1 then j else l
  {
    assert m[..j + 1][..j] == m[..j];
  }

  /** The first forEach loop of the server's vote resolution: count the ballots per
      target in a Map kept in first-vote order. */
  method CountBallots(votes: Ballots) returns (voteCounts: OMap<string, nat>)
    ensures voteCounts == CountsOf(votes)
    ensures forall t :: HasKey(voteCounts, t) <==> Count(votes, t) > 0
  {
    voteCounts := [];
    var i := 0;
    while i < |votes|
      invariant 0 <= i <= |votes|
      invariant voteCounts == CountsOf(votes[..i])
    {
      var votedId := votes[i].1;
      CountsOfPrefixStep(votes, i);
      voteCounts := Set(voteCounts, votedId, GetOrZero(voteCounts, votedId) + 1);
      i := i + 1;
    }
    assert votes[..|votes|] == votes;
    forall t
      ensures HasKey(voteCounts, t) <==> Count(votes, t) > 0
    {
      CountsOfKeys(votes, t);
    }
  }

  /** The second forEach loop of the server's vote resolution: walk the count Map
      keeping the first target whose count is strictly greater than the best so far. */
  method PickLeader(voteCounts: OMap<string, nat>) returns (votedOut: Option<string>)
    requires forall k :: 0 <= k < |voteCounts| ==> voteCounts[k].1 > 0
    ensures votedOut == if voteCounts == [] then None else Some(voteCounts[LeaderOf(voteCounts)].0)
  {
    var maxVotes := 0;
    votedOut := None;
    var j := 0;
    ghost var lead := 0;
    while j < |voteCounts|
      invariant 0 <= j <= |voteCounts|
      invariant j == 0 ==> votedOut == None && maxVotes == 0
      invariant j > 0 ==> lead == LeaderOf(voteCounts[..j]) && votedOut == Some(voteCounts[lead].0)
                          && maxVotes == voteCounts[lead].1
    {
      if j > 0 {
        LeaderOfPrefixStep(voteCounts, j);
      }
      if voteCounts[j].1 > maxVotes {
        maxVotes := voteCounts[j].1;
        votedOut := Some(voteCounts[j].0);
        lead := j;
      }
      j := j + 1;
    }
    assert voteCounts[..|voteCounts|] == voteCounts;
  }

  /** The server's vote resolution: count, then pick the leader; the result is the
      plurality target with ties going to the target voted for first. */
  method Tally(votes: Ballots) returns (votedOut: Option<string>)
    ensures votedOut == Winner(votes)
    ensures votedOut.None? <==> votes == []
    ensures votedOut.Some? ==> IsPlurality(votes, votedOut.value)
  {
    var voteCounts := CountBallots(votes);
    votedOut := PickLeader(voteCounts);
    WinnerIsPlurality(votes, if votedOut.Some? then votedOut.value else "");
  }
}
