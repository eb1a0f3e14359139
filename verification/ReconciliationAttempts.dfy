/** When a page of attempts is converted, and what its items say, in terms of the response. */
module ReconciliationAttempts {
  import opened Text
  import opened PlatformJson
  import opened ReconciliationItem
  import opened ReconciliationPage
  import opened ReconciliationEvidence

  // --- one attempt ---

  /** The anti-cheat mode is a list or an object, which the script cannot look up in a set. */
  predicate UnhashableField(lib: Library, f: map<string, Json>) {
    var v := AntiCheatField(lib, f);
    v.Obj? && (Get(v.fields, "mode").Arr? || Get(v.fields, "mode").Obj?)
  }

  /** The response does not name another challenge or attempt. */
  predicate SameIdentity(lib: Library, f: map<string, Json>, challenge: string, attempt: string) {
    && (First(f, ["challengeId", "challenge_id"]) != Null ==>
          ToString(lib, First(f, ["challengeId", "challenge_id"])) == challenge)
    && (First(f, ["attemptId", "attempt_id", "id"]) != Null ==>
          ToString(lib, First(f, ["attemptId", "attempt_id", "id"])) == attempt)
  }

  /** What the converter checks before it reads the evidence. */
  predicate Addressed(lib: Library, response: Json, q: Request, attempt: string, route: string, position: int) {
    && !Blank(q.challenge) && !Blank(attempt) && !Blank(route) && position >= 0 && q.observedAt >= 0
    && response.Obj? && SameIdentity(lib, response.fields, q.challenge, attempt)
  }

  ghost predicate ScoresInRange(lib: Library, f: map<string, Json>) {
    && (NoNumber(RawField(lib, f)) || NumberWithin(RawField(lib, f), 0.0, 100.0))
    && (NoNumber(EffectiveField(lib, f)) || NumberWithin(EffectiveField(lib, f), -1.0, 100.0))
  }

  /** What the item says, from the response alone. */
  ghost predicate ItemSays(lib: Library, f: map<string, Json>, expected: Option<string>, item: Item) {
    && FactsSay(lib, f, item.facts)
    && (item.facts.evidencePresent <==> Proven(lib, f, expected))
    && if Proven(lib, f, expected) then ObservationSays(lib, f, item.state)
       else item.state == UnknownNeedsReconcile(Semicolons(Raised(Doubts(lib, f, expected))))
  }

  lemma RangeMeans(lib: Library, f: map<string, Json>, r: Reading)
    requires ReadFrom(lib, f, r)
    ensures ScoresInRange(lib, f)
            <==> && (r.rawScore.Some? ==> 0.0 <= r.rawScore.value <= 100.0)
                 && (r.effective.Some? ==> -1.0 <= r.effective.value <= 100.0)
  {
    hide ReadFrom, NumberWithin, NoNumber, RawField, EffectiveField, Number, PenaltySettled, PenaltyProven, NoPenalty;
    ScoresRead(lib, f, r);
    NumberIn(RawField(lib, f), 0.0, 100.0);
    NumberIn(EffectiveField(lib, f), -1.0, 100.0);
  }

  /** An attempt is converted exactly if it is addressed to the request, its scores are in range, and its
      anti-cheat mode can be looked up; an unhashable mode is the one error that nobody catches. */
  lemma BuildMeans(lib: Library, response: Json, q: Request, attempt: string, route: string, position: int)
    ensures var built := BuildItem(lib, response, q, attempt, route, position);
            && (built.Ok? <==> && Addressed(lib, response, q, attempt, route, position)
                               && !UnhashableField(lib, response.fields) && ScoresInRange(lib, response.fields))
            && (built == Err(UnhashableMode) <==> && Addressed(lib, response, q, attempt, route, position)
                                                  && UnhashableField(lib, response.fields))
            && (built.Ok? ==>
                  && built.value.stream == q.challenge + "/attempts" && built.value.position == position
                  && built.value.challenge == q.challenge && built.value.attempt == attempt
                  && built.value.route == route && built.value.observedAt == q.observedAt
                  && built.value.sha256 == q.sha256
                  && ItemSays(lib, response.fields, q.expectedOwner, built.value))
  {
    hide Read, FactsOf, StateOf, Complete, NestedFirst, First, AntiCheat, Blank, ToString, ScoresInRange, ItemSays,
         ReadFrom, UnhashableField;
    if Addressed(lib, response, q, attempt, route, position) {
      var f := response.fields;
      HashMeans(lib, f);
      assert AntiCheatField(lib, f) == NestedFirst(lib, f, ["anti_cheat", "antiCheat", "anticheat"]);
      if AntiCheat(lib, AntiCheatField(lib, f)).Ok? {
        var r := Read(lib, f, AntiCheat(lib, AntiCheatField(lib, f)).value);
        IsReadFrom(lib, f);
        RangeMeans(lib, f, r);
        var item := Item(q.challenge + "/attempts", position, q.challenge, attempt, route, q.observedAt, q.sha256,
                         FactsOf(r, Complete(r, q.expectedOwner)), StateOf(r, q.expectedOwner));
        ItemMeans(lib, f, r, q.expectedOwner, item);
      }
    }
  }

  lemma HashMeans(lib: Library, f: map<string, Json>)
    ensures UnhashableField(lib, f) <==> AntiCheat(lib, AntiCheatField(lib, f)).Err?
    ensures UnhashableField(lib, f) ==> AntiCheat(lib, AntiCheatField(lib, f)).error == UnhashableMode
  {
    hide AntiCheat, AntiCheatField, Get, ThreeSignals, SignalSays;
    AntiCheatMeans(lib, AntiCheatField(lib, f));
  }

  lemma IsReadFrom(lib: Library, f: map<string, Json>)
    requires AntiCheat(lib, AntiCheatField(lib, f)).Ok?
    ensures ReadFrom(lib, f, Read(lib, f, AntiCheat(lib, AntiCheatField(lib, f)).value))
  {
    hide Read, AntiCheat, AntiCheatField;
  }

  lemma ItemMeans(lib: Library, f: map<string, Json>, r: Reading, expected: Option<string>, item: Item)
    requires ReadFrom(lib, f, r)
    requires item.facts == FactsOf(r, Complete(r, expected)) && item.state == StateOf(r, expected)
    ensures ItemSays(lib, f, expected, item)
  {
    hide ReadFrom, FactsSay, Proven, ObservationSays, Complete, Doubts, Raised, Semicolons, Reasons, Join;
    FactsMean(lib, f, r, Complete(r, expected));
    StateMeans(lib, f, r, expected);
    ProvenRead(lib, f, r, expected);
    if StateOf(r, expected).Observation? { ObservationMeans(lib, f, r, expected); }
  }

  // --- the registry ---

  /** A required text: there, and no truth value. */
  predicate Given(v: Json) { v != Null && !v.Bool? && !(v.Str? && Blank(v.s)) }

  /** An optional text. */
  predicate NoTruthValue(v: Json) { !v.Bool? }

  /** An optional number, possibly written as a text. */
  predicate Numeric(lib: Library, v: Json) {
    v == Null || v.Int? || v.Num? || (v.Str? && (Blank(v.s) || lib.toFloat(v.s).Some?))
  }

  function AttemptId(f: map<string, Json>): Json { First(f, ["attempt_id", "attemptId", "attempt", "id"]) }

  function ChallengeId(f: map<string, Json>): Json { First(f, ["challenge_id", "challengeId", "challenge"]) }

  function RegisteredRoute(f: map<string, Json>): Json { First(f, ["route", "route", "url", "path"]) }

  /** An attempt object with an id, a challenge and an owner, and nothing of a wrong type. */
  predicate Registered(lib: Library, f: map<string, Json>) {
    && Given(AttemptId(f)) && ToString(lib, AttemptId(f)) != "" && Given(ChallengeId(f))
    && Given(First(f, ["owner", "credited_owner", "creditedOwner", "owner", "user", "agent"]))
    && Numeric(lib, First(f, ["raw_score", "rawScore", "original_score", "originalScore"]))
    && Numeric(lib, First(f, ["effective_score", "effectiveScore", "credited_score", "creditedScore", "score"]))
    && NoTruthValue(RegisteredRoute(f))
    && NoTruthValue(First(f, ["bundle_revision", "bundleRevision", "bundle_hash", "bundleHash"]))
  }

  /** The attempt's own route, or else the request's. */
  function RouteTaken(lib: Library, f: map<string, Json>, route: string): string {
    var v := RegisteredRoute(f);
    if Given(v) && ToString(lib, v) != "" then ToString(lib, v) else route
  }

  lemma StringMeans(lib: Library, f: map<string, Json>, name: string, aliases: seq<string>, keys: seq<string>,
                    required: bool)
    requires keys == [name] + aliases
    ensures var r := StringField(lib, f, name, aliases, required);
            var v := First(f, keys);
            && (r.Ok? <==> if required then Given(v) else NoTruthValue(v))
            && (r.Ok? ==> r.value == if Given(v) then Some(ToString(lib, v)) else None)
            && (r.Err? ==> r.error.BadField?)
  {
    hide First, ToString, Blank;
  }

  lemma NumericMeans(lib: Library, f: map<string, Json>, name: string, aliases: seq<string>, keys: seq<string>)
    requires keys == [name] + aliases
    ensures NumberField(lib, f, name, aliases) <==> Numeric(lib, First(f, keys))
  {
    hide First, Blank;
  }

  /** The identity of an attempt. */
  lemma IdentityMeans(lib: Library, a: Json)
    ensures IdentityOf(lib, a).Ok? <==> a.Obj? && Registered(lib, a.fields)
    ensures IdentityOf(lib, a).Err? ==> IdentityOf(lib, a).error != UnhashableMode
    ensures IdentityOf(lib, a).Ok? ==>
              && IdentityOf(lib, a).value.attempt == ToString(lib, AttemptId(a.fields))
              && IdentityOf(lib, a).value.challenge == ToString(lib, ChallengeId(a.fields))
              && forall route :: RouteOf(IdentityOf(lib, a).value, route) == RouteTaken(lib, a.fields, route)
  {
    hide First, ToString, Blank, StringField, NumberField, Given, NoTruthValue, Numeric;
    if a.Obj? {
      var f := a.fields;
      StringMeans(lib, f, "attempt_id", ["attemptId", "attempt", "id"], ["attempt_id", "attemptId", "attempt", "id"], true);
      StringMeans(lib, f, "challenge_id", ["challengeId", "challenge"], ["challenge_id", "challengeId", "challenge"], true);
      StringMeans(lib, f, "owner", ["credited_owner", "creditedOwner", "owner", "user", "agent"],
                  ["owner", "credited_owner", "creditedOwner", "owner", "user", "agent"], true);
      NumericMeans(lib, f, "raw_score", ["rawScore", "original_score", "originalScore"],
                   ["raw_score", "rawScore", "original_score", "originalScore"]);
      NumericMeans(lib, f, "effective_score", ["effectiveScore", "credited_score", "creditedScore", "score"],
                   ["effective_score", "effectiveScore", "credited_score", "creditedScore", "score"]);
      StringMeans(lib, f, "route", ["route", "url", "path"], ["route", "route", "url", "path"], false);
      StringMeans(lib, f, "bundle_revision", ["bundleRevision", "bundle_hash", "bundleHash"],
                  ["bundle_revision", "bundleRevision", "bundle_hash", "bundleHash"], false);
    }
  }

  // --- the page ---

  /** The attempts of a response: a list, the list under the first of five keys that holds one, or the response
      itself. */
  ghost predicate Entries(response: Json, attempts: seq<Json>) {
    var keys := ["attempts", "data", "items", "results", "entries"];
    || response == Arr(attempts)
    || (response.Obj? && exists n :: 0 <= n < 5 && keys[n] in response.fields
                                     && response.fields[keys[n]] == Arr(attempts)
                                     && forall i :: 0 <= i < n ==> NoList(response.fields, keys[i]))
    || (response.Obj? && attempts == [response] && forall i :: 0 <= i < 5 ==> NoList(response.fields, keys[i]))
  }

  predicate NoList(f: map<string, Json>, key: string) { key in f ==> !f[key].Arr? }

  lemma EntriesMean(response: Json)
    ensures AttemptPage(response).Ok? <==> response.Arr? || response.Obj?
    ensures AttemptPage(response).Ok? ==> Entries(response, AttemptPage(response).value)
    ensures AttemptPage(response).Err? ==> AttemptPage(response).error != UnhashableMode
  {
    if response.Obj? {
      var keys := ["attempts", "data", "items", "results", "entries"];
      hide Entries;
      var n := ListFound(response.fields, keys);
      ListEntries(response, keys, n);
    }
  }

  lemma ListEntries(response: Json, keys: seq<string>, n: nat)
    requires response.Obj? && keys == ["attempts", "data", "items", "results", "entries"]
    requires n <= |keys| && forall i :: 0 <= i < n ==> NoList(response.fields, keys[i])
    requires n == |keys| ==> FirstList(response.fields, keys) == None
    requires n < |keys| ==> && keys[n] in response.fields && response.fields[keys[n]].Arr?
                            && FirstList(response.fields, keys) == Some(response.fields[keys[n]].items)
    ensures Entries(response, AttemptPage(response).value)
  {
    hide FirstList, NoList;
  }

  /** Where the first list is. */
  lemma {:induction false} ListFound(f: map<string, Json>, keys: seq<string>) returns (n: nat)
    ensures n <= |keys| && forall i :: 0 <= i < n ==> NoList(f, keys[i])
    ensures n == |keys| ==> FirstList(f, keys) == None
    ensures n < |keys| ==> keys[n] in f && f[keys[n]].Arr? && FirstList(f, keys) == Some(f[keys[n]].items)
  {
    if keys == [] {
      n := 0;
    } else {
      GetMeans(f, keys[0]);
      if Get(f, keys[0]).Arr? {
        n := 0;
      } else {
        hide Get;
        var m := ListFound(f, keys[1..]);
        n := m + 1;
      }
    }
  }

  lemma GetMeans(f: map<string, Json>, key: string)
    ensures Get(f, key) == if key in f then f[key] else Null
  {
    if key !in f { FirstIsNull(f, [key]); }
  }

  /** An attempt of the requested challenge. */
  predicate OfChallenge(lib: Library, a: Json, challenge: string) {
    a.Obj? && Registered(lib, a.fields) && ToString(lib, ChallengeId(a.fields)) == challenge
  }

  function IdText(lib: Library, a: Json): string { if a.Obj? then ToString(lib, AttemptId(a.fields)) else "" }

  predicate SameAttempt(lib: Library, a: Json, b: Json) {
    a.Obj? && b.Obj? && ToString(lib, AttemptId(a.fields)) == ToString(lib, AttemptId(b.fields))
  }

  /** All attempts are of the challenge, and no two have the same id. */
  predicate OneChallenge(lib: Library, attempts: seq<Json>, challenge: string) {
    && (forall k :: 0 <= k < |attempts| ==> OfChallenge(lib, attempts[k], challenge))
    && forall j, k :: 0 <= j < k < |attempts| ==> !SameAttempt(lib, attempts[j], attempts[k])
  }

  lemma {:induction false} ProblemMeans(lib: Library, attempts: seq<Json>, challenge: string, i: nat, seen: set<string>)
    requires i <= |attempts|
    requires forall j :: 0 <= j < i ==> OfChallenge(lib, attempts[j], challenge)
    requires forall x :: x in seen <==> exists j :: 0 <= j < i && IdText(lib, attempts[j]) == x
    requires forall j, k :: 0 <= j < k < i ==> !SameAttempt(lib, attempts[j], attempts[k])
    ensures Problem(lib, attempts, challenge, i, seen).None? <==> OneChallenge(lib, attempts, challenge)
    ensures Problem(lib, attempts, challenge, i, seen) != Some(UnhashableMode)
    decreases |attempts| - i
  {
    hide IdentityOf, Registered, ToString, AttemptId, ChallengeId, RouteTaken;
    if i < |attempts| {
      var a := attempts[i];
      IdentityMeans(lib, a);
      if OfChallenge(lib, a, challenge) {
        var x := ToString(lib, AttemptId(a.fields));
        if x in seen {
          var j :| 0 <= j < i && IdText(lib, attempts[j]) == x;
          assert SameAttempt(lib, attempts[j], attempts[i]);
        } else {
          assert forall j :: 0 <= j < i ==> !SameAttempt(lib, attempts[j], a);
          assert forall y :: y in seen + {x}
                   <==> exists j :: 0 <= j < i + 1 && IdText(lib, attempts[j]) == y by {
            forall y | y in seen + {x} ensures exists j :: 0 <= j < i + 1 && IdText(lib, attempts[j]) == y {
              if y == x { assert IdText(lib, attempts[i]) == y; }
            }
          }
          ProblemMeans(lib, attempts, challenge, i + 1, seen + {x});
        }
      }
    }
  }

  /** The attempt can be converted. */
  ghost predicate Convertible(lib: Library, a: Json, q: Request, position: int) {
    && a.Obj?
    && Addressed(lib, a, q, ToString(lib, AttemptId(a.fields)), RouteTaken(lib, a.fields, q.route), position)
    && !UnhashableField(lib, a.fields) && ScoresInRange(lib, a.fields)
  }

  /** Looking up its anti-cheat mode crashes. */
  predicate Crashing(lib: Library, a: Json, q: Request, position: int) {
    && a.Obj?
    && Addressed(lib, a, q, ToString(lib, AttemptId(a.fields)), RouteTaken(lib, a.fields, q.route), position)
    && UnhashableField(lib, a.fields)
  }

  /** The item of an attempt. */
  ghost predicate ItemOf(lib: Library, a: Json, q: Request, position: int, item: Item) {
    && a.Obj?
    && item.stream == q.challenge + "/attempts" && item.position == position && item.challenge == q.challenge
    && item.attempt == ToString(lib, AttemptId(a.fields)) && item.route == RouteTaken(lib, a.fields, q.route)
    && item.observedAt == q.observedAt && item.sha256 == q.sha256
    && ItemSays(lib, a.fields, q.expectedOwner, item)
  }

  lemma BuiltMeans(lib: Library, a: Json, q: Request, position: int)
    requires IdentityOf(lib, a).Ok?
    ensures var id := IdentityOf(lib, a).value;
            var built := BuildItem(lib, a, q, id.attempt, RouteOf(id, q.route), position);
            && (built.Ok? <==> Convertible(lib, a, q, position))
            && (built == Err(UnhashableMode) <==> Crashing(lib, a, q, position))
            && (built.Ok? ==> ItemOf(lib, a, q, position, built.value))
  {
    hide IdentityOf, BuildItem, Addressed, UnhashableField, ScoresInRange, ItemSays, ToString, AttemptId, ChallengeId,
         RouteTaken, RouteOf, Registered;
    IdentityMeans(lib, a);
    var id := IdentityOf(lib, a).value;
    BuildMeans(lib, a, q, id.attempt, RouteOf(id, q.route), position);
  }

  lemma {:induction false} ItemsFromMean(lib: Library, attempts: seq<Json>, q: Request, cursor: int, i: nat)
    requires i <= |attempts| && forall k :: 0 <= k < |attempts| ==> IdentityOf(lib, attempts[k]).Ok?
    ensures var items := ItemsFrom(lib, attempts, q, cursor, i);
            && (items.Ok? <==> forall k :: i <= k < |attempts| ==> Convertible(lib, attempts[k], q, cursor + k))
            && (items == Err(UnhashableMode)
                <==> exists k :: && i <= k < |attempts| && Crashing(lib, attempts[k], q, cursor + k)
                                 && forall j :: i <= j < k ==> Convertible(lib, attempts[j], q, cursor + j))
            && (items.Ok? ==>
                  && |items.value| == |attempts| - i
                  && forall k :: i <= k < |attempts| ==> ItemOf(lib, attempts[k], q, cursor + k, items.value[k - i]))
    decreases |attempts| - i
  {
    hide IdentityOf, BuildItem, Convertible, Crashing, ItemOf;
    if i < |attempts| {
      BuiltMeans(lib, attempts[i], q, cursor + i);
      ItemsFromMean(lib, attempts, q, cursor, i + 1);
      NotBoth(lib, attempts[i], q, cursor + i);
    }
  }

  lemma NotBoth(lib: Library, a: Json, q: Request, position: int)
    ensures !(Convertible(lib, a, q, position) && Crashing(lib, a, q, position))
  {
    hide Addressed, UnhashableField, ScoresInRange;
  }

  /** When a page is converted: one challenge, no id twice, every attempt convertible at its position. Then each
      item says what its attempt says. Otherwise there is no item at all, and the error is one that is caught
      unless some attempt before any other mistake has a mode that cannot be looked up. */
  lemma PageConverts(lib: Library, response: Json, q: Request, cursor: int)
    ensures var items := ItemsOf(lib, response, q, cursor);
            var page := AttemptPage(response);
            && (page.Ok? ==> Entries(response, page.value))
            && (items.Ok? <==>
                  && cursor >= 0 && (response.Arr? || response.Obj?) && OneChallenge(lib, page.value, q.challenge)
                  && forall k :: 0 <= k < |page.value| ==> Convertible(lib, page.value[k], q, cursor + k))
            && (items == Err(UnhashableMode) <==>
                  && cursor >= 0 && (response.Arr? || response.Obj?) && OneChallenge(lib, page.value, q.challenge)
                  && exists k :: && 0 <= k < |page.value| && Crashing(lib, page.value[k], q, cursor + k)
                                 && forall j :: 0 <= j < k ==> Convertible(lib, page.value[j], q, cursor + j))
            && (items.Ok? ==>
                  && |items.value| == |page.value|
                  && forall k :: 0 <= k < |page.value| ==> ItemOf(lib, page.value[k], q, cursor + k, items.value[k]))
  {
    hide AttemptPage, Entries, Problem, Convertible, Crashing, ItemOf, ItemsFrom, Registered, IdentityOf, ToString;
    EntriesMean(response);
    if cursor >= 0 && AttemptPage(response).Ok? {
      var attempts := AttemptPage(response).value;
      ProblemMeans(lib, attempts, q.challenge, 0, {});
      if OneChallenge(lib, attempts, q.challenge) {
        forall k | 0 <= k < |attempts| ensures IdentityOf(lib, attempts[k]).Ok? {
          assert OfChallenge(lib, attempts[k], q.challenge);
          IdentityMeans(lib, attempts[k]);
        }
        ItemsFromMean(lib, attempts, q, cursor, 0);
      }
    }
  }
}
