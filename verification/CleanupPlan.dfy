/** The planner that picks the attempts of redundant identities for deletion. */
module CleanupPlan {
  import opened Text

  datatype Attempt = Attempt(id: string, author: string, score: Option<real>)

  /** A team attempt under the label of its challenge. */
  datatype Entry = Entry(challenge: string, attempt: Attempt)

  const EPS := 0.000001

  /** A missing score counts as zero. */
  function Score(e: Entry): real { if e.attempt.score.Some? then e.attempt.score.value else 0.0 }

  function Author(e: Entry): string { e.attempt.author }

  predicate Near(x: real, y: real) { -EPS < x - y < EPS }

  /** The best score in a challenge, but at least zero. */
  function Max(team: seq<Entry>, challenge: string): real {
    if team == [] then 0.0
    else
      var best := Max(team[..|team| - 1], challenge);
      var last := team[|team| - 1];
      if last.challenge == challenge && Score(last) > best then Score(last) else best
  }

  /** The entry is at its challenge's maximum. */
  predicate AtMax(team: seq<Entry>, e: Entry) { Near(Score(e), Max(team, e.challenge)) }

  ghost predicate Keeper(team: seq<Entry>, author: string) {
    exists e :: e in team && AtMax(team, e) && Author(e) == author
  }

  /** The entries planned for deletion, in order: those of authors who are no keepers. */
  ghost function Plan(team: seq<Entry>, within: seq<Entry>): (plan: seq<Entry>)
    ensures forall e :: e in plan <==> e in within && !Keeper(team, Author(e))
  {
    if within == [] then []
    else
      var rest := Plan(team, within[..|within| - 1]);
      var last := within[|within| - 1];
      if Keeper(team, Author(last)) then rest else rest + [last]
  }

  /** The maxima table of the source: only labels that occur. */
  ghost predicate TableOf(table: map<string, real>, team: seq<Entry>) {
    forall l :: (l in table <==> exists e :: e in team && e.challenge == l) && (l in table ==> table[l] == Max(team, l))
  }

  lemma TableMore(table: map<string, real>, team: seq<Entry>, e: Entry)
    requires TableOf(table, team)
    ensures var before := if e.challenge in table then table[e.challenge] else 0.0;
            TableOf(table[e.challenge := if Score(e) > before then Score(e) else before], team + [e])
  {
    var more := team + [e];
    assert more[..|more| - 1] == team;
    if e.challenge !in table { NoEntries(team, e.challenge); }
  }

  lemma {:induction false} NoEntries(team: seq<Entry>, challenge: string)
    requires forall e :: e in team ==> e.challenge != challenge
    ensures Max(team, challenge) == 0.0
  {
    if team != [] { NoEntries(team[..|team| - 1], challenge); }
  }

  method Maxima(team: seq<Entry>) returns (table: map<string, real>)
    ensures TableOf(table, team)
  {
    table := map[];
    for i := 0 to |team|
      invariant TableOf(table, team[..i])
    {
      var e := team[i];
      assert team[..i + 1] == team[..i] + [e];
      TableMore(table, team[..i], e);
      var before := if e.challenge in table then table[e.challenge] else 0.0;
      table := table[e.challenge := if Score(e) > before then Score(e) else before];
    }
    assert team[..|team|] == team;
  }

  method Keepers(team: seq<Entry>, table: map<string, real>) returns (keepers: set<string>)
    requires TableOf(table, team)
    ensures forall a :: a in keepers <==> Keeper(team, a)
  {
    keepers := {};
    for i := 0 to |team|
      invariant forall a :: a in keepers <==> exists k :: 0 <= k < i && AtMax(team, team[k]) && Author(team[k]) == a
    {
      assert team[i] in team;
      if Near(Score(team[i]), table[team[i].challenge]) { keepers := keepers + {Author(team[i])}; }
    }
  }

  /** `main` up to the plan, with the guard that is never to fire. */
  method MakePlan(team: seq<Entry>) returns (dels: seq<Entry>, skipped: seq<Entry>)
    ensures dels == Plan(team, team)
    ensures skipped == []
  {
    var table := Maxima(team);
    var keepers := Keepers(team, table);
    dels, skipped := [], [];
    for i := 0 to |team|
      invariant dels == Plan(team, team[..i]) && skipped == []
    {
      var e := team[i];
      assert team[..i + 1][..i] == team[..i];
      assert e in team;
      if Author(e) !in keepers {
        if Near(Score(e), table[e.challenge]) {
          skipped := skipped + [e];
          continue;
        }
        dels := dels + [e];
      }
    }
    assert team[..|team|] == team;
  }

  // --- what is planned, in terms of the scores ---

  lemma ScoreMeans(e: Entry)
    ensures e.attempt.score == None ==> Score(e) == 0.0
    ensures forall x :: e.attempt.score == Some(x) ==> Score(e) == x
  {}

  /** The entry is clearly below zero, or clearly below another of its challenge. */
  ghost predicate Beaten(team: seq<Entry>, d: Entry) {
    Score(d) <= -0.000001 || exists r :: r in team && r.challenge == d.challenge && Score(r) - Score(d) >= 0.000001
  }

  /** Every entry of the author is beaten. */
  ghost predicate Redundant(team: seq<Entry>, author: string) {
    forall d :: d in team && d.attempt.author == author ==> Beaten(team, d)
  }

  lemma BeatenMeans(team: seq<Entry>, d: Entry)
    requires d in team
    ensures Beaten(team, d) <==> !AtMax(team, d)
  {
    MaxBounds(team, d.challenge);
    if !AtMax(team, d) && Max(team, d.challenge) != 0.0 {
      var r :| r in team && r.challenge == d.challenge && Score(r) == Max(team, d.challenge);
      assert Score(r) - Score(d) >= 0.000001;
    }
  }

  /** Exactly the entries of redundant authors are planned, each as often as it occurs. */
  lemma PlanMeans(team: seq<Entry>, e: Entry)
    ensures multiset(Plan(team, team))[e] == if Redundant(team, e.attempt.author) then multiset(team)[e] else 0
  {
    forall d | d in team ensures Beaten(team, d) <==> !AtMax(team, d) { BeatenMeans(team, d); }
    assert Redundant(team, e.attempt.author) <==> !Keeper(team, e.attempt.author) by { hide Beaten, AtMax; }
    PlanCount(team, team, e);
  }

  lemma {:induction false} PlanCount(team: seq<Entry>, within: seq<Entry>, e: Entry)
    ensures multiset(Plan(team, within))[e] == if Keeper(team, Author(e)) then 0 else multiset(within)[e]
  {
    hide Keeper;
    if within != [] {
      var front, last := within[..|within| - 1], within[|within| - 1];
      PlanCount(team, front, e);
      assert within == front + [last];
    }
  }

  /** What is left after attempts are deleted by their ids. */
  function Without(team: seq<Entry>, ids: set<string>): (left: seq<Entry>)
    ensures forall e :: e in left <==> e in team && e.attempt.id !in ids
  {
    if team == [] then []
    else
      var rest := Without(team[..|team| - 1], ids);
      var last := team[|team| - 1];
      if last.attempt.id in ids then rest else rest + [last]
  }

  /** An id belongs to one author. */
  ghost predicate Coherent(team: seq<Entry>) {
    forall d, e :: d in team && e in team && d.attempt.id == e.attempt.id ==> Author(d) == Author(e)
  }

  /** Only planned attempts are deleted. */
  ghost predicate Planned(team: seq<Entry>, ids: set<string>) {
    forall id :: id in ids ==> exists e :: e in Plan(team, team) && e.attempt.id == id
  }

  lemma {:induction false} MaxBounds(team: seq<Entry>, challenge: string)
    ensures Max(team, challenge) >= 0.0
    ensures forall e :: e in team && e.challenge == challenge ==> Score(e) <= Max(team, challenge)
    ensures Max(team, challenge) == 0.0 || exists e :: e in team && e.challenge == challenge && Score(e) == Max(team, challenge)
  {
    if team != [] {
      var front := team[..|team| - 1];
      var last := team[|team| - 1];
      MaxBounds(front, challenge);
      assert team == front + [last];
      if Max(team, challenge) != 0.0 && Max(team, challenge) == Max(front, challenge) {
        var e :| e in front && e.challenge == challenge && Score(e) == Max(front, challenge);
        assert e in team;
      }
    }
  }

  /** An attempt at its challenge's maximum is never deleted. */
  lemma MaxStays(team: seq<Entry>, ids: set<string>, e: Entry)
    requires Coherent(team) && Planned(team, ids) && e in team && AtMax(team, e)
    ensures e in Without(team, ids)
  {
    assert Keeper(team, Author(e));
    assert forall d :: d in Plan(team, team) ==> d in team && Author(d) != Author(e);
  }

  /** Whichever of the planned attempts are deleted, every challenge keeps its maximum. */
  lemma MaximaConserved(team: seq<Entry>, ids: set<string>, challenge: string)
    requires Coherent(team) && Planned(team, ids)
    ensures Max(Without(team, ids), challenge) == Max(team, challenge)
  {
    var left := Without(team, ids);
    MaxBounds(team, challenge);
    MaxBounds(left, challenge);
    if Max(team, challenge) != 0.0 {
      var e :| e in team && e.challenge == challenge && Score(e) == Max(team, challenge);
      MaxStays(team, ids, e);
    }
  }

  /** … and the keepers stay the same. */
  lemma KeepersConserved(team: seq<Entry>, ids: set<string>, author: string)
    requires Coherent(team) && Planned(team, ids)
    ensures Keeper(Without(team, ids), author) <==> Keeper(team, author)
  {
    var left := Without(team, ids);
    forall e: Entry ensures AtMax(left, e) <==> AtMax(team, e) {
      MaximaConserved(team, ids, e.challenge);
    }
    if e :| e in team && AtMax(team, e) && Author(e) == author {
      MaxStays(team, ids, e);
      assert e in left && AtMax(left, e);
    }
  }

  /** … and planning again gives exactly the deletions that are still to be done. */
  lemma Replan(team: seq<Entry>, ids: set<string>)
    requires Coherent(team) && Planned(team, ids)
    ensures var left := Without(team, ids);
            Plan(left, left) == Without(Plan(team, team), ids)
  {
    ReplanWithin(team, ids, team);
  }

  lemma {:induction false} ReplanWithin(team: seq<Entry>, ids: set<string>, within: seq<Entry>)
    requires Coherent(team) && Planned(team, ids)
    ensures Plan(Without(team, ids), Without(within, ids)) == Without(Plan(team, within), ids)
  {
    hide Keeper;
    if within != [] {
      var front := within[..|within| - 1];
      var last := within[|within| - 1];
      ReplanWithin(team, ids, front);
      KeepersConserved(team, ids, Author(last));
      PlanSnoc(Without(team, ids), Without(front, ids), last);
      WithoutSnoc(Plan(team, front), last, ids);
    }
  }

  lemma PlanSnoc(team: seq<Entry>, within: seq<Entry>, e: Entry)
    ensures Plan(team, within + [e])
         == if Keeper(team, Author(e)) then Plan(team, within) else Plan(team, within) + [e]
  {
    hide Keeper;
    assert (within + [e])[..|within|] == within;
  }

  lemma WithoutSnoc(team: seq<Entry>, e: Entry, ids: set<string>)
    ensures Without(team + [e], ids) == if e.attempt.id in ids then Without(team, ids) else Without(team, ids) + [e]
  {
    assert (team + [e])[..|team|] == team;
  }

  // --- the top score itself ---

  /** An entry nobody in its challenge beats. */
  ghost predicate Top(team: seq<Entry>, e: Entry) {
    e in team && forall d :: d in team && d.challenge == e.challenge ==> Score(d) <= Score(e)
  }

  /** A top entry that is not clearly below zero is at the maximum, and so stays. */
  lemma TopAtMax(team: seq<Entry>, e: Entry)
    requires Top(team, e)
    ensures AtMax(team, e) <==> Score(e) > -EPS
  {
    MaxBounds(team, e.challenge);
  }

  /** All planned ids. */
  ghost function AllIds(plan: seq<Entry>): (ids: set<string>)
    ensures forall id :: id in ids <==> exists e :: e in plan && e.attempt.id == id
  {
    set e | e in plan :: e.attempt.id
  }

  /** The whole plan leaves some top entry of a challenge exactly if one of them is a keeper's,
      which is so whenever the top score is not below zero. A challenge whose best score is
      negative may lose it. */
  lemma TopSurvives(team: seq<Entry>, e: Entry)
    requires Coherent(team) && Top(team, e)
    ensures (exists d :: Top(team, d) && d.challenge == e.challenge && d in Without(team, AllIds(Plan(team, team))))
       <==> (exists d :: Top(team, d) && d.challenge == e.challenge && Keeper(team, Author(d)))
    ensures Score(e) > -EPS ==> Keeper(team, Author(e))
  {
    hide Keeper;
    var ids := AllIds(Plan(team, team));
    forall d | Top(team, d) ensures d in Without(team, ids) <==> Keeper(team, Author(d)) {
      StaysIff(team, d);
    }
    TopAtMax(team, e);
    if Score(e) > -EPS { IsKeeper(team, e); }
  }

  lemma IsKeeper(team: seq<Entry>, e: Entry)
    requires e in team && AtMax(team, e)
    ensures Keeper(team, Author(e))
  {}

  lemma StaysIff(team: seq<Entry>, d: Entry)
    requires Coherent(team) && d in team
    ensures d in Without(team, AllIds(Plan(team, team))) <==> Keeper(team, Author(d))
  {
    hide Keeper;
    var plan := Plan(team, team);
    if d.attempt.id in AllIds(plan) {
      var e :| e in plan && e.attempt.id == d.attempt.id;
      assert e in team && Author(e) == Author(d);
    }
  }

  /** The one attempt of a challenge, scored below zero, is planned for deletion. */
  lemma NegativeTopLost(id: string, author: string, challenge: string, score: real)
    requires score <= -EPS
    ensures var e := Entry(challenge, Attempt(id, author, Some(score)));
            Top([e], e) && Plan([e], [e]) == [e]
  {
    var e := Entry(challenge, Attempt(id, author, Some(score)));
    TopAtMax([e], e);
    assert [e][..0] == [];
  }

  /** How many entries there are with a property. */
  function Tally(plan: seq<Entry>, p: Entry -> bool): nat {
    if plan == [] then 0
    else Tally(plan[..|plan| - 1], p) + if p(plan[|plan| - 1]) then 1 else 0
  }

  /** The deletions: `has` says for whom there is a token, `accepted` what the platform answers. */
  method Execute(plan: seq<Entry>, has: string -> bool, accepted: string -> bool)
    returns (deleted: set<string>, ok: nat, failed: nat)
    ensures forall id :: id in deleted <==>
              exists e :: e in plan && e.attempt.id == id && has(Author(e)) && accepted(id)
    ensures ok == Tally(plan, e => has(Author(e)) && accepted(e.attempt.id))
    ensures ok + failed == Tally(plan, e => has(Author(e)))
  {
    deleted, ok, failed := {}, 0, 0;
    ghost var tried := (e: Entry) => has(Author(e));
    ghost var done := (e: Entry) => has(Author(e)) && accepted(e.attempt.id);
    for i := 0 to |plan|
      invariant forall id :: id in deleted <==>
                  exists k :: 0 <= k < i && plan[k].attempt.id == id && has(Author(plan[k])) && accepted(id)
      invariant ok == Tally(plan[..i], done) && ok + failed == Tally(plan[..i], tried)
    {
      assert plan[..i + 1][..i] == plan[..i];
      var e := plan[i];
      if !has(Author(e)) { continue; }
      if accepted(e.attempt.id) {
        deleted, ok := deleted + {e.attempt.id}, ok + 1;
      } else {
        failed := failed + 1;
      }
    }
    assert plan[..|plan|] == plan;
  }

  /** The whole program, whichever deletions the platform accepts: no maximum falls, no keeper is lost,
      and what is planned next is what was not done. */
  method CleanUp(team: seq<Entry>, execute: bool, has: string -> bool, accepted: string -> bool)
    returns (deleted: set<string>)
    ensures !execute ==> deleted == {}
    ensures execute ==> forall id :: id in deleted <==>
              exists e :: e in Plan(team, team) && e.attempt.id == id && has(Author(e)) && accepted(id)
    ensures Coherent(team) ==>
              var left := Without(team, deleted);
              && (forall l :: Max(left, l) == Max(team, l))
              && (forall a :: Keeper(left, a) <==> Keeper(team, a))
              && Plan(left, left) == Without(Plan(team, team), deleted)
  {
    hide Plan, Keeper, Max, Without;
    var dels, skipped := MakePlan(team);
    deleted := {};
    if execute {
      var ok, failed;
      deleted, ok, failed := Execute(dels, has, accepted);
    }
    if Coherent(team) {
      assert Planned(team, deleted);
      forall l ensures Max(Without(team, deleted), l) == Max(team, l) { MaximaConserved(team, deleted, l); }
      forall a ensures Keeper(Without(team, deleted), a) <==> Keeper(team, a) { KeepersConserved(team, deleted, a); }
      Replan(team, deleted);
    }
  }
}
