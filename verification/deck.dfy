/**
  The Match view (views/Match.tsx): the deck of candidates built from the
  profile pool, and the swipe cursor that walks it.
 */
module Deck {
  import opened Options
  import opened Seqs
  import opened Types
  import opened Scoring
  import opened Session

  /** A profile together with the weight getMatchScore gives it. */
  datatype Candidate = Candidate(profile: Profile, weight: nat)

  function CandidateWeight(c: Candidate): int {
    c.weight
  }

  /** The map step: each profile paired with its weight. */
  function Scored(ps: seq<Profile>, weigh: Profile -> nat): (r: seq<Candidate>)
    ensures |r| == |ps|
    ensures forall i :: 0 <= i < |ps| ==> r[i].profile == ps[i] && r[i].weight == weigh(ps[i])
  {
    if |ps| == 0 then [] else [Candidate(ps[0], weigh(ps[0]))] + Scored(ps[1..], weigh)
  }

  function NotFriend(friends: seq<string>): Profile -> bool {
    (p: Profile) => p.name !in friends
  }

  /** The deck threshold: a score of at least 50. */
  function Passing(c: Candidate): bool {
    ScoreAtLeast(c.weight, 50)
  }

  /** The deck for a friend list and a weighing of profiles: friends
      dropped, the rest weighed, those scoring under 50 dropped, then sorted
      by score, highest first. */
  function BuildDeck(friends: seq<string>, pool: seq<Profile>, weigh: Profile -> nat): (r: seq<Candidate>)
    ensures SortedDesc(r, CandidateWeight)
    ensures |r| <= |pool|
  {
    SortDesc(Filter(Scored(Filter(pool, NotFriend(friends)), weigh), Passing), CandidateWeight)
  }

  /** getMatchScore for the signed-in user, as a weighing of profiles. */
  function Weigher(u: User): Profile -> nat {
    (p: Profile) => MatchWeight(u, p)
  }

  /** matchedProfiles, recomputed from the user. */
  function MatchedProfiles(u: User, pool: seq<Profile>): (r: seq<Candidate>)
    ensures SortedDesc(r, CandidateWeight)
    ensures |r| <= |pool|
  {
    BuildDeck(u.friends, pool, Weigher(u))
  }

  lemma ScoredMembers(ps: seq<Profile>, weigh: Profile -> nat)
    ensures forall c :: c in Scored(ps, weigh) <==> c.profile in ps && c.weight == weigh(c.profile)
  {
    var r := Scored(ps, weigh);
    forall c ensures c in r <==> c.profile in ps && c.weight == weigh(c.profile) {
      if c.profile in ps && c.weight == weigh(c.profile) {
        var i :| 0 <= i < |ps| && ps[i] == c.profile;
        assert r[i] == c;
      }
    }
  }

  /** The deck holds exactly the pool's non-friends scoring at least 50
      (weight at least 4), each with its weight. */
  lemma DeckMembers(friends: seq<string>, pool: seq<Profile>, weigh: Profile -> nat)
    ensures forall c :: c in BuildDeck(friends, pool, weigh) <==>
      c.profile in pool && c.profile.name !in friends && c.weight == weigh(c.profile) && c.weight >= 4
  {
    var kept := Filter(pool, NotFriend(friends));
    var scored := Scored(kept, weigh);
    FilterMembers(pool, NotFriend(friends));
    ScoredMembers(kept, weigh);
    FilterMembers(scored, Passing);
    SortDescMembers(Filter(scored, Passing), CandidateWeight);
  }

  /** The deck is a reordering of the passing candidates in which those with
      equal scores keep the order of the pool. */
  lemma DeckKeepsPoolOrderOnTies(friends: seq<string>, pool: seq<Profile>, weigh: Profile -> nat)
    ensures var passing := Filter(Scored(Filter(pool, NotFriend(friends)), weigh), Passing);
      SameOrderPerKey(BuildDeck(friends, pool, weigh), passing, CandidateWeight) &&
      multiset(BuildDeck(friends, pool, weigh)) == multiset(passing)
  {
    SortDescStable(Filter(Scored(Filter(pool, NotFriend(friends)), weigh), Passing), CandidateWeight);
  }

  /** Every card in the deck shows the "Study" badge. */
  lemma DeckShowsStudyBadge(u: User, pool: seq<Profile>, c: Candidate)
    requires c in MatchedProfiles(u, pool)
    ensures StudyBadge(u, c.profile)
  {
    DeckMembers(u.friends, pool, Weigher(u));
    StudyBadgeIff(u, c.profile);
  }

  /** The score never depends on the friend list. */
  lemma WeightIgnoresFriends(u: User, friends: seq<string>, p: Profile)
    ensures MatchWeight(u.(friends := friends), p) == MatchWeight(u, p)
  {
  }

  // ---------------------------------------------------------------------
  // The swipe cursor

  datatype Direction = Left | Right

  /** The card on show: none once the cursor is at or past the end
      ("All Caught Up"). */
  function Current(deck: seq<Candidate>, index: nat): (r: Option<Candidate>)
    ensures r.None? <==> index >= |deck|
    ensures r.Some? ==> r.value in deck
  {
    if index < |deck| then Some(deck[index]) else None
  }

  /** handleSwipe on the deck as it stands: a right swipe adds the shown
      profile's name as a friend, and either way the cursor moves on by one.
      The swipe buttons only exist while a card is shown. */
  function Swipe(a: Account, deck: seq<Candidate>, index: nat, dir: Direction): (r: (Account, nat))
    requires index < |deck|
    ensures r.1 == index + 1
    ensures dir == Left ==> r.0 == a
    ensures dir == Right && a.user.Some? ==>
      r.0.user.Some? && forall x :: x in r.0.user.value.friends <==> x in a.user.value.friends || x == deck[index].profile.name
    ensures dir == Right && a.user.Some? ==> r.0.user.value.(friends := a.user.value.friends) == a.user.value
    ensures dir == Right && (a.user.None? || deck[index].profile.name in a.user.value.friends) ==> r.0 == a
    ensures dir == Right && a.user.Some? && deck[index].profile.name !in a.user.value.friends ==>
      r.0.users == ReplaceByEmail(a.users, r.0.user.value)
    ensures Emails(r.0.users) == Emails(a.users)
  {
    if dir == Right then (AddFriend(a, deck[index].profile.name), index + 1) else (a, index + 1)
  }

  /** Swiping through a fixed deck: after k swipes the cursor is at k, and
      every profile swiped right is a friend. */
  method SwipeAll(a: Account, deck: seq<Candidate>, dirs: seq<Direction>) returns (b: Account, index: nat)
    requires a.user.Some?
    requires |dirs| <= |deck|
    ensures index == |dirs|
    ensures b.user.Some?
    ensures forall k :: 0 <= k < |dirs| && dirs[k] == Right ==> deck[k].profile.name in b.user.value.friends
    ensures forall x :: x in a.user.value.friends ==> x in b.user.value.friends
    ensures |dirs| == |deck| ==> Current(deck, index).None?
  {
    b, index := a, 0;
    while index < |dirs|
      invariant index <= |dirs|
      invariant b.user.Some?
      invariant forall k :: 0 <= k < index && dirs[k] == Right ==> deck[k].profile.name in b.user.value.friends
      invariant forall x :: x in a.user.value.friends ==> x in b.user.value.friends
    {
      var r := Swipe(b, deck, index, dirs[index]);
      b, index := r.0, r.1;
    }
  }

  // ---------------------------------------------------------------------
  // The deck after a right swipe

  function NotNamed(name: string): Candidate -> bool {
    (c: Candidate) => c.profile.name != name
  }

  lemma {:induction false} ScoredFilter(ps: seq<Profile>, weigh: Profile -> nat, name: string)
    ensures Scored(Filter(ps, (p: Profile) => p.name != name), weigh) == Filter(Scored(ps, weigh), NotNamed(name))
  {
    if |ps| > 0 {
      var keep := (p: Profile) => p.name != name;
      var q, rest := ps[0], ps[1..];
      assert ps == [q] + rest;
      ScoredFilter(rest, weigh, name);
      FilterCons(q, rest, keep);
      ScoredCons(q, rest, weigh);
      ScoredCons(q, Filter(rest, keep), weigh);
      FilterCons(Candidate(q, weigh(q)), Scored(rest, weigh), NotNamed(name));
    }
  }

  lemma ScoredCons(q: Profile, rest: seq<Profile>, weigh: Profile -> nat)
    ensures Scored([q] + rest, weigh) == [Candidate(q, weigh(q))] + Scored(rest, weigh)
  {
    assert ([q] + rest)[0] == q && ([q] + rest)[1..] == rest;
  }

  /** Adding a name to the friend list rebuilds the deck without that
      profile; nothing else moves. */
  lemma RebuiltDeckDropsFriend(friends: seq<string>, pool: seq<Profile>, weigh: Profile -> nat, name: string)
    ensures BuildDeck(friends + [name], pool, weigh) == Filter(BuildDeck(friends, pool, weigh), NotNamed(name))
  {
    FilterAnd(pool, NotFriend(friends), (p: Profile) => p.name != name, NotFriend(friends + [name]));
    var scored := Scored(Filter(pool, NotFriend(friends)), weigh);
    ScoredFilter(Filter(pool, NotFriend(friends)), weigh, name);
    FilterCommute(scored, NotNamed(name), Passing);
    SortFilterCommute(Filter(scored, Passing), CandidateWeight, NotNamed(name));
  }

  /** Two weighings that agree on the pool build the same deck. */
  lemma BuildDeckSameWeights(friends: seq<string>, pool: seq<Profile>, w1: Profile -> nat, w2: Profile -> nat)
    requires forall p :: p in pool ==> w1(p) == w2(p)
    ensures BuildDeck(friends, pool, w1) == BuildDeck(friends, pool, w2)
  {
    var kept := Filter(pool, NotFriend(friends));
    FilterMembers(pool, NotFriend(friends));
    assert Scored(kept, w1) == Scored(kept, w2);
  }

  /** The score ignores the friend list, so the deck for a user with a new
      friend list is built with the old user's weighing. */
  lemma MatchedUsesOldWeigher(u: User, friends: seq<string>, pool: seq<Profile>)
    ensures MatchedProfiles(u.(friends := friends), pool) == BuildDeck(friends, pool, Weigher(u))
  {
    var u' := u.(friends := friends);
    forall p | p in pool ensures Weigher(u')(p) == Weigher(u)(p) {
      WeightIgnoresFriends(u, friends, p);
    }
    BuildDeckSameWeights(friends, pool, Weigher(u'), Weigher(u));
  }

  /** The deck recomputed after addFriend: the old deck without the friend. */
  lemma MatchedAfterAddFriend(u: User, pool: seq<Profile>, name: string)
    ensures MatchedProfiles(u.(friends := u.friends + [name]), pool) == Filter(MatchedProfiles(u, pool), NotNamed(name))
  {
    MatchedUsesOldWeigher(u, u.friends + [name], pool);
    RebuiltDeckDropsFriend(u.friends, pool, Weigher(u), name);
  }

  /** No card of a deck names one of the friends it was built for. */
  lemma DeckAvoidsFriends(friends: seq<string>, pool: seq<Profile>, weigh: Profile -> nat, i: nat)
    requires i < |BuildDeck(friends, pool, weigh)|
    ensures BuildDeck(friends, pool, weigh)[i].profile.name !in friends
  {
    DeckMembers(friends, pool, weigh);
    assert BuildDeck(friends, pool, weigh)[i] in BuildDeck(friends, pool, weigh);
  }

  /** Whether the card at i is the only one with its name. */
  predicate NameUniqueAt(d: seq<Candidate>, i: nat)
    requires i < |d|
  {
    forall j :: 0 <= j < |d| && j != i ==> d[j].profile.name != d[i].profile.name
  }

  /** As written, for a deck built with any weighing that ignores the friend
      list: a right swipe rebuilds the deck without the accepted card while
      the cursor still moves on, so the card that was next is passed over. */
  lemma DeckSkipsNext(a: Account, pool: seq<Profile>, weigh: Profile -> nat, i: nat)
    requires a.user.Some?
    requires i + 1 < |BuildDeck(a.user.value.friends, pool, weigh)|
    requires NameUniqueAt(BuildDeck(a.user.value.friends, pool, weigh), i)
    ensures var d := BuildDeck(a.user.value.friends, pool, weigh);
      var r := Swipe(a, d, i, Right);
      var d' := BuildDeck(r.0.user.value.friends, pool, weigh);
      d' == d[..i] + d[i + 1..] && r.1 == i + 1 &&
      d'[i] == d[i + 1] &&
      Current(d', r.1) == Current(d, i + 2)
  {
    var u := a.user.value;
    var d := BuildDeck(u.friends, pool, weigh);
    DeckAvoidsFriends(u.friends, pool, weigh, i);
    RebuiltDeckDropsFriend(u.friends, pool, weigh, d[i].profile.name);
    FilterRemovesOnlyAt(d, NotNamed(d[i].profile.name), i);
  }

  /** As written, on the Match view's deck: after a right swipe the deck is
      rebuilt without the accepted profile and the cursor still moves on, so
      the card that was next slides under the cursor's old place and is
      passed over without being shown. */
  lemma RightSwipeSkipsNext(a: Account, pool: seq<Profile>, i: nat)
    requires a.user.Some?
    requires i + 1 < |MatchedProfiles(a.user.value, pool)|
    requires NameUniqueAt(MatchedProfiles(a.user.value, pool), i)
    ensures var d := MatchedProfiles(a.user.value, pool);
      var r := Swipe(a, d, i, Right);
      var d' := MatchedProfiles(r.0.user.value, pool);
      d' == d[..i] + d[i + 1..] && r.1 == i + 1 &&
      d'[i] == d[i + 1] &&
      Current(d', r.1) == Current(d, i + 2)
  {
    var u := a.user.value;
    var d := MatchedProfiles(u, pool);
    DeckSkipsNext(a, pool, Weigher(u), i);
    var u' := Swipe(a, d, i, Right).0.user.value;
    assert u' == u.(friends := u'.friends);
    MatchedUsesOldWeigher(u, u'.friends, pool);
  }

  /** Corrected swipe: after a right swipe the accepted card leaves the
      rebuilt deck, so the cursor stays where it is; a left swipe moves on. */
  function SwipeCorrected(a: Account, deck: seq<Candidate>, index: nat, dir: Direction): (r: (Account, nat))
    requires index < |deck|
    ensures dir == Left ==> r == (a, index + 1)
    ensures dir == Right ==> r.1 == index && r.0 == Swipe(a, deck, index, dir).0
  {
    if dir == Right then (AddFriend(a, deck[index].profile.name), index) else (a, index + 1)
  }

  /** With the correction, for a deck built with any weighing that ignores
      the friend list, the card shown after either swipe is the one that
      followed the swiped card. */
  lemma DeckCorrectedShowsNext(a: Account, pool: seq<Profile>, weigh: Profile -> nat, i: nat, dir: Direction)
    requires a.user.Some?
    requires i < |BuildDeck(a.user.value.friends, pool, weigh)|
    requires NameUniqueAt(BuildDeck(a.user.value.friends, pool, weigh), i)
    ensures var d := BuildDeck(a.user.value.friends, pool, weigh);
      var r := SwipeCorrected(a, d, i, dir);
      Current(BuildDeck(r.0.user.value.friends, pool, weigh), r.1) == Current(d, i + 1)
  {
    if dir == Right {
      CorrectedRightShowsNext(a, pool, weigh, i);
    }
  }

  /** The right-swipe case: the rebuilt deck lacks exactly the swiped card,
      so the unchanged cursor lands on its successor. */
  lemma CorrectedRightShowsNext(a: Account, pool: seq<Profile>, weigh: Profile -> nat, i: nat)
    requires a.user.Some?
    requires i < |BuildDeck(a.user.value.friends, pool, weigh)|
    requires NameUniqueAt(BuildDeck(a.user.value.friends, pool, weigh), i)
    ensures var d := BuildDeck(a.user.value.friends, pool, weigh);
      var r := SwipeCorrected(a, d, i, Right);
      Current(BuildDeck(r.0.user.value.friends, pool, weigh), r.1) == Current(d, i + 1)
  {
    var u := a.user.value;
    var d := BuildDeck(u.friends, pool, weigh);
    DeckAvoidsFriends(u.friends, pool, weigh, i);
    RebuiltDeckDropsFriend(u.friends, pool, weigh, d[i].profile.name);
    FilterRemovesOnlyAt(d, NotNamed(d[i].profile.name), i);
  }

  /** With the correction, on the Match view's deck, the card shown after
      either swipe is the one that followed the swiped card. */
  lemma CorrectedShowsNext(a: Account, pool: seq<Profile>, i: nat, dir: Direction)
    requires a.user.Some?
    requires i < |MatchedProfiles(a.user.value, pool)|
    requires NameUniqueAt(MatchedProfiles(a.user.value, pool), i)
    ensures var d := MatchedProfiles(a.user.value, pool);
      var r := SwipeCorrected(a, d, i, dir);
      Current(MatchedProfiles(r.0.user.value, pool), r.1) == Current(d, i + 1)
  {
    var u := a.user.value;
    var d := MatchedProfiles(u, pool);
    DeckCorrectedShowsNext(a, pool, Weigher(u), i, dir);
    var u' := SwipeCorrected(a, d, i, dir).0.user.value;
    assert u' == u.(friends := u'.friends);
    MatchedUsesOldWeigher(u, u'.friends, pool);
  }
}
