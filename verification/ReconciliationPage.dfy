/** A page of attempts turned into items at consecutive positions, or into none. */
module ReconciliationPage {
  import opened Text
  import opened PlatformJson
  import opened ReconciliationItem

  /** What the converter is called with, besides the response and the position. */
  datatype Request = Request(challenge: string, route: string, observedAt: int, sha256: string,
                             expectedOwner: Option<string>)

  datatype Identity = Identity(attempt: string, challenge: string, route: Option<string>)

  predicate Missing(v: Json) { v == Null || (v.Str? && Blank(v.s)) }

  /** A `string` field of the attempt registry. */
  function StringField(lib: Library, fields: map<string, Json>, name: string, aliases: seq<string>, required: bool)
    : Result<Option<string>, Error>
  {
    var v := First(fields, [name] + aliases);
    if Missing(v) then (if required then Err(BadField(name)) else Ok(None))
    else if v.Bool? then Err(BadField(name))
    else Ok(Some(ToString(lib, v)))
  }

  /** An optional `number` field: only whether it is acceptable matters here. */
  predicate NumberField(lib: Library, fields: map<string, Json>, name: string, aliases: seq<string>) {
    var v := First(fields, [name] + aliases);
    Missing(v) || v.Num? || v.Int? || (v.Str? && lib.toFloat(v.s).Some?)
  }

  /** `normalize_object` with the attempt registry, in the registry's order. */
  function IdentityOf(lib: Library, a: Json): Result<Identity, Error> {
    if !a.Obj? then Err(NotAnObject)
    else
      var attempt := StringField(lib, a.fields, "attempt_id", ["attemptId", "attempt", "id"], true);
      if attempt.Err? then Err(attempt.error) else
      var challenge := StringField(lib, a.fields, "challenge_id", ["challengeId", "challenge"], true);
      if challenge.Err? then Err(challenge.error) else
      var owner := StringField(lib, a.fields, "owner", ["credited_owner", "creditedOwner", "owner", "user", "agent"],
                               true);
      if owner.Err? then Err(owner.error) else
      if !NumberField(lib, a.fields, "raw_score", ["rawScore", "original_score", "originalScore"])
      then Err(BadField("raw_score")) else
      if !NumberField(lib, a.fields, "effective_score",
                      ["effectiveScore", "credited_score", "creditedScore", "score"])
      then Err(BadField("effective_score")) else
      var route := StringField(lib, a.fields, "route", ["route", "url", "path"], false);
      if route.Err? then Err(route.error) else
      var bundle := StringField(lib, a.fields, "bundle_revision", ["bundleRevision", "bundle_hash", "bundleHash"],
                                false);
      if bundle.Err? then Err(bundle.error) else
      if attempt.value.None? || attempt.value == Some("") then Err(BadField("attempt_id")) else
      if challenge.value.None? then Err(BadField("challenge_id")) else
      Ok(Identity(attempt.value.value, challenge.value.value, route.value))
  }

  function RouteOf(id: Identity, route: string): string {
    if id.route.Some? && id.route.value != "" then id.route.value else route
  }

  /** `build_reconciliation_item` */
  function BuildItem(lib: Library, response: Json, q: Request, attempt: string, route: string, position: int)
    : Result<Item, Error>
  {
    if Blank(q.challenge) || Blank(attempt) || Blank(route) then Err(BlankIdentity)
    else if position < 0 || q.observedAt < 0 then Err(NegativePosition)
    else if !response.Obj? then Err(NotAnObject)
    else
      var challengeField := First(response.fields, ["challengeId", "challenge_id"]);
      var attemptField := First(response.fields, ["attemptId", "attempt_id", "id"]);
      if challengeField != Null && ToString(lib, challengeField) != q.challenge then Err(OtherChallenge)
      else if attemptField != Null && ToString(lib, attemptField) != attempt then Err(OtherAttempt)
      else
        var antiCheat := AntiCheat(lib, NestedFirst(lib, response.fields, ["anti_cheat", "antiCheat", "anticheat"]));
        if antiCheat.Err? then Err(antiCheat.error)
        else
          var r := Read(lib, response.fields, antiCheat.value);
          if r.rawScore.Some? && !(0.0 <= r.rawScore.value <= 100.0) then Err(ScoreRange("raw_score"))
          else if r.effective.Some? && !(-1.0 <= r.effective.value <= 100.0) then Err(ScoreRange("effective_score"))
          else Ok(Item(q.challenge + "/attempts", position, q.challenge, attempt, route, q.observedAt, q.sha256,
                       FactsOf(r, Complete(r, q.expectedOwner)), StateOf(r, q.expectedOwner)))
  }

  /** `_attempt_page` */
  function AttemptPage(response: Json): Result<seq<Json>, Error> {
    if response.Arr? then Ok(response.items)
    else if !response.Obj? then Err(NotAnObject)
    else
      var page := FirstList(response.fields, ["attempts", "data", "items", "results", "entries"]);
      Ok(if page.Some? then page.value else [response])
  }

  function FirstList(fields: map<string, Json>, keys: seq<string>): Option<seq<Json>> {
    if keys == [] then None
    else if Get(fields, keys[0]).Arr? then Some(Get(fields, keys[0]).items)
    else FirstList(fields, keys[1..])
  }

  /** The first thing wrong with the attempts from `i` on, given the ids seen before. */
  function Problem(lib: Library, attempts: seq<Json>, challenge: string, i: nat, seen: set<string>): Option<Error>
    requires i <= |attempts|
    decreases |attempts| - i
  {
    if i == |attempts| then None
    else
      match IdentityOf(lib, attempts[i])
      case Err(e) => Some(e)
      case Ok(id) =>
        if id.challenge != challenge then Some(OtherChallenge)
        else if id.attempt in seen then Some(DuplicateAttempt)
        else Problem(lib, attempts, challenge, i + 1, seen + {id.attempt})
  }

  /** The items of the attempts from `i` on, or the first error. */
  function ItemsFrom(lib: Library, attempts: seq<Json>, q: Request, cursor: int, i: nat): Result<seq<Item>, Error>
    requires i <= |attempts|
    decreases |attempts| - i
  {
    if i == |attempts| then Ok([])
    else
      match IdentityOf(lib, attempts[i])
      case Err(e) => Err(e)
      case Ok(id) =>
        match BuildItem(lib, attempts[i], q, id.attempt, RouteOf(id, q.route), cursor + i)
        case Err(e) => Err(e)
        case Ok(item) =>
          match ItemsFrom(lib, attempts, q, cursor, i + 1)
          case Err(e) => Err(e)
          case Ok(rest) => Ok([item] + rest)
  }

  function ItemsOf(lib: Library, response: Json, q: Request, cursor: int): Result<seq<Item>, Error> {
    if cursor < 0 then Err(NegativePosition)
    else
      match AttemptPage(response)
      case Err(e) => Err(e)
      case Ok(attempts) =>
        match Problem(lib, attempts, q.challenge, 0, {})
        case Some(e) => Err(e)
        case None => ItemsFrom(lib, attempts, q, cursor, 0)
  }

  /** `build_reconciliation_items` */
  method BuildItems(lib: Library, response: Json, q: Request, cursor: int) returns (r: Result<seq<Item>, Error>)
    ensures r == ItemsOf(lib, response, q, cursor)
  {
    hide IdentityOf, BuildItem;
    if cursor < 0 { return Err(NegativePosition); }
    var page := AttemptPage(response);
    if page.Err? { return Err(page.error); }
    var attempts := page.value;
    var seen: set<string> := {};
    for i := 0 to |attempts|
      invariant Problem(lib, attempts, q.challenge, 0, {}) == Problem(lib, attempts, q.challenge, i, seen)
    {
      var id := IdentityOf(lib, attempts[i]);
      if id.Err? { return Err(id.error); }
      if id.value.challenge != q.challenge { return Err(OtherChallenge); }
      if id.value.attempt in seen { return Err(DuplicateAttempt); }
      seen := seen + {id.value.attempt};
    }
    var items: seq<Item> := [];
    BeforeNone(ItemsFrom(lib, attempts, q, cursor, 0));
    for i := 0 to |attempts|
      invariant ItemsFrom(lib, attempts, q, cursor, 0) == Before(items, ItemsFrom(lib, attempts, q, cursor, i))
    {
      var id := IdentityOf(lib, attempts[i]);
      if id.Err? { return Err(id.error); }
      var item := BuildItem(lib, attempts[i], q, id.value.attempt, RouteOf(id.value, q.route), cursor + i);
      if item.Err? { return Err(item.error); }
      BeforeMore(items, item.value, ItemsFrom(lib, attempts, q, cursor, i + 1));
      items := items + [item.value];
    }
    assert items + [] == items;
    return Ok(items);
  }

  lemma BeforeNone(rest: Result<seq<Item>, Error>)
    ensures Before([], rest) == rest
  {
    if rest.Ok? { assert [] + rest.value == rest.value; }
  }

  function Before(items: seq<Item>, rest: Result<seq<Item>, Error>): Result<seq<Item>, Error> {
    match rest
    case Err(e) => Err(e)
    case Ok(more) => Ok(items + more)
  }

  lemma BeforeMore(items: seq<Item>, item: Item, rest: Result<seq<Item>, Error>)
    ensures Before(items, Before([item], rest)) == Before(items + [item], rest)
  {
    if rest.Ok? { assert items + ([item] + rest.value) == items + [item] + rest.value; }
  }

  lemma {:induction false} ItemsFromAt(lib: Library, attempts: seq<Json>, q: Request, cursor: int, i: nat, k: nat)
    requires i <= k < |attempts| && ItemsFrom(lib, attempts, q, cursor, i).Ok?
    ensures |ItemsFrom(lib, attempts, q, cursor, i).value| == |attempts| - i
    ensures IdentityOf(lib, attempts[k]).Ok?
    ensures var id := IdentityOf(lib, attempts[k]).value;
            BuildItem(lib, attempts[k], q, id.attempt, RouteOf(id, q.route), cursor + k)
            == Ok(ItemsFrom(lib, attempts, q, cursor, i).value[k - i])
    decreases |attempts| - i
  {
    hide IdentityOf, BuildItem;
    if i < k { ItemsFromAt(lib, attempts, q, cursor, i + 1, k); }
    ItemsFromLength(lib, attempts, q, cursor, i);
  }

  lemma {:induction false} ItemsFromLength(lib: Library, attempts: seq<Json>, q: Request, cursor: int, i: nat)
    requires i <= |attempts| && ItemsFrom(lib, attempts, q, cursor, i).Ok?
    ensures |ItemsFrom(lib, attempts, q, cursor, i).value| == |attempts| - i
    decreases |attempts| - i
  {
    hide IdentityOf, BuildItem;
    if i < |attempts| { ItemsFromLength(lib, attempts, q, cursor, i + 1); }
  }

  /** With no problem from `i` on, later attempts are of the challenge and none repeats an id. */
  lemma {:induction false} NoProblem(lib: Library, attempts: seq<Json>, challenge: string, i: nat, seen: set<string>,
                                     k: nat)
    requires i <= k < |attempts| && Problem(lib, attempts, challenge, i, seen).None?
    ensures IdentityOf(lib, attempts[k]).Ok?
    ensures var id := IdentityOf(lib, attempts[k]).value;
            && id.challenge == challenge && id.attempt !in seen
            && forall j :: i <= j < k ==>
                 IdentityOf(lib, attempts[j]).Ok? && IdentityOf(lib, attempts[j]).value.attempt != id.attempt
    decreases |attempts| - i
  {
    hide IdentityOf;
    if i < k {
      NoProblem(lib, attempts, challenge, i + 1, seen + {IdentityOf(lib, attempts[i]).value.attempt}, k);
    }
  }

  /** What is known of an item, whatever the response was. */
  predicate WellFormed(item: Item, q: Request, position: int) {
    && item.position == position
    && item.stream == q.challenge + "/attempts" && item.challenge == q.challenge
    && item.sha256 == q.sha256 && item.observedAt == q.observedAt
    && !Blank(item.attempt) && !Blank(item.route)
    && (item.state.UnknownNeedsReconcile? ==> item.state.reason != "")
    && (item.state.Observation? <==> item.facts.evidencePresent)
  }

  /** What an item that was built is made of. */
  lemma BuiltFrom(lib: Library, response: Json, q: Request, attempt: string, route: string, position: int)
    returns (r: Reading)
    requires BuildItem(lib, response, q, attempt, route, position).Ok?
    ensures var item := BuildItem(lib, response, q, attempt, route, position).value;
            && item == Item(q.challenge + "/attempts", position, q.challenge, attempt, route, q.observedAt, q.sha256,
                            FactsOf(r, Complete(r, q.expectedOwner)), StateOf(r, q.expectedOwner))
    ensures !Blank(attempt) && !Blank(route)
    ensures r.rawScore.Some? ==> 0.0 <= r.rawScore.value <= 100.0
    ensures r.effective.Some? ==> -1.0 <= r.effective.value <= 100.0
    ensures response.Obj? && exists antiCheat :: r == Read(lib, response.fields, antiCheat)
  {
    hide Complete, Read, FactsOf, StateOf, AntiCheat, NestedFirst, First, Blank;
    var antiCheat := AntiCheat(lib, NestedFirst(lib, response.fields, ["anti_cheat", "antiCheat", "anticheat"]));
    r := Read(lib, response.fields, antiCheat.value);
  }

  lemma BuiltItem(lib: Library, response: Json, q: Request, attempt: string, route: string, position: int)
    requires BuildItem(lib, response, q, attempt, route, position).Ok?
    ensures var item := BuildItem(lib, response, q, attempt, route, position).value;
            && WellFormed(item, q, position) && item.attempt == attempt && item.route == route
  {
    hide BuildItem, Complete, Reasons, Read, FactsOf, StateOf, Blank;
    var r := BuiltFrom(lib, response, q, attempt, route, position);
    ObservationIff(r, q.expectedOwner);
    StateFacts(r, q.expectedOwner);
  }

  lemma StateFacts(r: Reading, expected: Option<string>)
    ensures StateOf(r, expected).Observation? <==> FactsOf(r, Complete(r, expected)).evidencePresent
  {
    hide Complete, Reasons;
  }

  /** The penalty basis of a reading is about its own scores. */
  lemma ReadPenalty(lib: Library, fields: map<string, Json>, antiCheat: Option<seq<Signal>>)
    ensures var r := Read(lib, fields, antiCheat);
            && (r.basis.Some? ==>
                  && r.penalty == Some(-1.0) && r.rawScore.Some? && r.effective.Some?
                  && Abs(r.effective.value - (r.rawScore.value - 1.0)) <= EPSILON
                  && Abs(r.basis.value.rewritten - (r.rawScore.value - 1.0)) <= 2.0 * EPSILON)
            && (r.scope.Some? ==> r.scope.value == UNIFIED)
  {
    hide CompletePenalty, NestedFirst, First, PageEvidence, Status, Evidence, Rescore, Owner, Bundle, Flag, Number;
    var r := Read(lib, fields, antiCheat);
    var basis := NestedFirst(lib, fields, ["penalty_basis", "penaltyBasis", "penalty_reason"]);
    if r.basis.Some? { PenaltyIsOnePoint(r.rawScore, r.effective, r.penalty, r.penaltyApplied, basis); }
  }

  /** A page gives one item per attempt, in order, at consecutive positions from the cursor, with
      pairwise distinct attempt ids, or no items at all. */
  lemma PageItems(lib: Library, response: Json, q: Request, cursor: int)
    requires ItemsOf(lib, response, q, cursor).Ok?
    ensures cursor >= 0 && AttemptPage(response).Ok?
    ensures var items := ItemsOf(lib, response, q, cursor).value;
            var attempts := AttemptPage(response).value;
            && |items| == |attempts|
            && (forall k :: 0 <= k < |items| ==>
                  && WellFormed(items[k], q, cursor + k)
                  && IdentityOf(lib, attempts[k]).Ok?
                  && items[k].attempt == IdentityOf(lib, attempts[k]).value.attempt)
            && (forall j, k :: 0 <= j < k < |items| ==> items[j].attempt != items[k].attempt)
  {
    hide IdentityOf, BuildItem, WellFormed;
    var items := ItemsOf(lib, response, q, cursor).value;
    var attempts := AttemptPage(response).value;
    ItemsFromLength(lib, attempts, q, cursor, 0);
    forall k | 0 <= k < |items|
      ensures WellFormed(items[k], q, cursor + k)
      ensures IdentityOf(lib, attempts[k]).Ok? && items[k].attempt == IdentityOf(lib, attempts[k]).value.attempt
    {
      ItemsFromAt(lib, attempts, q, cursor, 0, k);
      var id := IdentityOf(lib, attempts[k]).value;
      BuiltItem(lib, attempts[k], q, id.attempt, RouteOf(id, q.route), cursor + k);
    }
    forall j, k | 0 <= j < k < |items| ensures items[j].attempt != items[k].attempt {
      NoProblem(lib, attempts, q.challenge, 0, {}, k);
    }
  }

  /** The response says that a penalty was applied. */
  predicate Penalized(lib: Library, response: Json) {
    response.Obj? && Flag(lib, NestedFirst(lib, response.fields, ["penalty_applied", "penaltyApplied", "penalized"]))
  }

  lemma PenaltyFlag(lib: Library, fields: map<string, Json>, antiCheat: Option<seq<Signal>>, expected: Option<string>)
    requires Complete(Read(lib, fields, antiCheat), expected) && Penalized(lib, Obj(fields))
    ensures Read(lib, fields, antiCheat).basis.Some?
  {
    hide CompletePenalty, NestedFirst, First, PageEvidence, Status, Evidence, Rescore, Owner, Bundle, Flag, Number;
    hide ObservationComplete, OwnerMatches;
  }

  /** What the response says about its share route, and whether there is one. */
  function SaidShareRoute(lib: Library, page: map<string, Json>): Option<string> {
    Evidence(lib, NestedFirst(lib, page, ["share_route_status", "shareRouteStatus"]))
  }

  predicate HasShareRoute(lib: Library, page: map<string, Json>) {
    ShareRoute(lib, page).Some? && ShareRoute(lib, page).value != ""
  }

  /** A response whose challenge page contradicts itself about the share route can never become an
      observation, and its page is not passed on; a page that is passed on says `present` exactly if
      there is a route. */
  lemma PageFacts(lib: Library, response: Json, q: Request, attempt: string, route: string, position: int)
    requires BuildItem(lib, response, q, attempt, route, position).Ok? && response.Obj?
    requires NestedFirst(lib, response.fields, ["challenge_page", "challengePage"]).Obj?
    ensures var item := BuildItem(lib, response, q, attempt, route, position).value;
            var page := NestedFirst(lib, response.fields, ["challenge_page", "challengePage"]).fields;
            var present := HasShareRoute(lib, page);
            var said := SaidShareRoute(lib, page);
            if said.Some? && said.value != (if present then "present" else "unavailable") then
              item.state.UnknownNeedsReconcile? && item.facts.page.None?
            else
              item.facts.page.Some? && (item.facts.page.value.shareRouteStatus == "present" <==> present)
  {
    hide BuildItem, Read, ObservationComplete, PenaltySettled, NestedFirst, ShareRoute, Reasons, Join, Evidence, Section;
    var r := BuiltFrom(lib, response, q, attempt, route, position);
    var antiCheat :| r == Read(lib, response.fields, antiCheat);
    ReadPage(lib, response.fields, antiCheat);
  }

  lemma ReadPage(lib: Library, fields: map<string, Json>, antiCheat: Option<seq<Signal>>)
    ensures (Read(lib, fields, antiCheat).page, Read(lib, fields, antiCheat).pageConsistent) == PageEvidence(lib, fields)
  {
    hide CompletePenalty, NestedFirst, First, PageEvidence, Status, Evidence, Rescore, Owner, Bundle, Flag, Number;
  }

  /** An observation carries every fact the ledger relies on. */
  lemma ObservationFacts(lib: Library, response: Json, q: Request, attempt: string, route: string, position: int)
    requires BuildItem(lib, response, q, attempt, route, position).Ok?
    requires BuildItem(lib, response, q, attempt, route, position).value.state.Observation?
    ensures var facts := BuildItem(lib, response, q, attempt, route, position).value.facts;
            && facts.rawScore.Some? && 0.0 <= facts.rawScore.value <= 100.0
            && facts.effective.Some? && -1.0 <= facts.effective.value <= 100.0
            && (facts.penalty.Some? ==>
                  && facts.penalty.value.0 == -1.0
                  && Abs(facts.effective.value - (facts.rawScore.value - 1.0)) <= EPSILON
                  && Abs(facts.penalty.value.1.rewritten - (facts.rawScore.value - 1.0)) <= 2.0 * EPSILON)
            && (Penalized(lib, response) ==> facts.penalty.Some?)
            && facts.credited.Some? && facts.credited.value.1 == UNIFIED
            && (q.expectedOwner.Some? ==> facts.credited.value.0 == Strip(q.expectedOwner.value))
            && facts.bundle.Some? && facts.bundle.value.1 == "completed"
            && facts.trace == Some("present") && facts.antiCheat.Some?
  {
    hide BuildItem, Read, ObservationComplete, PenaltySettled, Strip, Abs;
    var r := BuiltFrom(lib, response, q, attempt, route, position);
    var antiCheat :| r == Read(lib, response.fields, antiCheat);
    ReadPenalty(lib, response.fields, antiCheat);
    if Penalized(lib, response) { PenaltyFlag(lib, response.fields, antiCheat, q.expectedOwner); }
    TraceObserved(r);
  }
}
