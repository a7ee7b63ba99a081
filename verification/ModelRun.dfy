/** One structured model run: bounded reference lookups before a final response, and exact cost accounting. */
module ModelRun {
  import opened Common

  const MAX_ROUNDS := 3
  const MAX_PAGES := 8
  const MAX_REQUESTS := 4

  // ── Usage ──────────────────────────────────────────────────────────────

  /** What calls cost. A count nobody reported is missing; `known` then holds what was reported. */
  datatype Usage = Usage(input: Option<nat>, output: Option<nat>, known: Option<(nat, nat)>)

  const ZERO := Usage(Some(0), Some(0), None)
  const UNREPORTED := Usage(None, None, None)

  function Or(count: Option<nat>): nat {
    if count.Some? then count.value else 0
  }

  function KnownInput(u: Usage): nat {
    if u.known.Some? then u.known.value.0 else Or(u.input)
  }

  function KnownOutput(u: Usage): nat {
    if u.known.Some? then u.known.value.1 else Or(u.output)
  }

  function Plus(a: Option<nat>, b: Option<nat>): Option<nat> {
    if a.None? || b.None? then None else Some(a.value + b.value)
  }

  /** `addUsage`. */
  function AddUsage(l: Usage, r: Usage): Usage {
    var input, output := Plus(l.input, r.input), Plus(l.output, r.output);
    Usage(input, output, if input.None? || output.None? then Some((KnownInput(l) + KnownInput(r), KnownOutput(l) + KnownOutput(r))) else None)
  }

  /** Usage that is consistent: what is reported whole is what is known of it. */
  predicate Consistent(u: Usage) {
    && (u.input.Some? ==> KnownInput(u) == u.input.value)
    && (u.output.Some? ==> KnownOutput(u) == u.output.value)
  }

  /** Two usages say the same. */
  predicate SameCost(a: Usage, b: Usage) {
    a.input == b.input && a.output == b.output && KnownInput(a) == KnownInput(b) && KnownOutput(a) == KnownOutput(b)
  }

  /** Adding is associative and keeps consistency; the zero changes nothing that usage says. */
  lemma AddIsAssociative(a: Usage, b: Usage, c: Usage)
    requires Consistent(a) && Consistent(b) && Consistent(c)
    ensures AddUsage(AddUsage(a, b), c) == AddUsage(a, AddUsage(b, c))
    ensures Consistent(AddUsage(a, b)) && SameCost(AddUsage(ZERO, a), a) && SameCost(AddUsage(a, ZERO), a)
  {
  }

  // ── What calls report ──────────────────────────────────────────────────

  function ReportedInput(calls: seq<Usage>): nat {
    if calls == [] then 0
    else
      var last := calls[|calls| - 1];
      ReportedInput(calls[..|calls| - 1])
      + if last.known.Some? then last.known.value.0 else if last.input.Some? then last.input.value else 0
  }

  function ReportedOutput(calls: seq<Usage>): nat {
    if calls == [] then 0
    else
      var last := calls[|calls| - 1];
      ReportedOutput(calls[..|calls| - 1])
      + if last.known.Some? then last.known.value.1 else if last.output.Some? then last.output.value else 0
  }

  /** A usage accounts for some calls: each is counted once, a total is missing exactly when some call lacked that
      count, and what is known is the sum of what was reported. */
  ghost predicate Accounts(u: Usage, calls: seq<Usage>) {
    && Consistent(u)
    && (u.input.None? <==> exists i :: 0 <= i < |calls| && calls[i].input.None?)
    && (u.output.None? <==> exists i :: 0 <= i < |calls| && calls[i].output.None?)
    && KnownInput(u) == ReportedInput(calls) && KnownOutput(u) == ReportedOutput(calls)
  }

  lemma CallAccounted(u: Usage, calls: seq<Usage>, call: Usage)
    requires Accounts(u, calls) && Consistent(call)
    ensures Accounts(AddUsage(u, call), calls + [call])
  {
    var all := calls + [call];
    assert all[..|calls|] == calls && all[|calls|] == call;
    assert forall i :: 0 <= i < |calls| ==> all[i] == calls[i];
  }

  // ── Responses ──────────────────────────────────────────────────────────

  /** What a field of a response holds, as far as the lookup gate cares. */
  datatype Entry = EmptyArray | EmptyObject | EmptyText | IsFalse | IsOne | Filled

  datatype References = NoReferences | NotAList | Requests(count: nat)

  datatype Response = Response(references: References, fields: map<string, Entry>)

  datatype Schema = Schema(properties: set<string>, required: set<string>)

  /** One round: the deadline had passed before the call, the call failed, or it answered with some usage, whose
      content may not be readable or not an object. */
  datatype Turn = TooLate | CallFailed(reason: string) | Unreadable(usage: Usage) | Answered(usage: Usage, response: Option<Response>)

  /** What a lookup may carry, field by field. */
  const PLACEHOLDERS: map<string, Entry> := map[
    "commands" := EmptyArray, "types" := EmptyArray, "predicates" := EmptyArray, "runtime" := EmptyArray,
    "reviewed_corrections" := EmptyArray, "digests" := EmptyObject, "found" := IsFalse, "uncertainty" := IsOne,
    "summary" := EmptyText, "answer" := EmptyText
  ]

  predicate IsPlaceholder(key: string, entry: Entry)
    ensures IsPlaceholder(key, entry) <==> key in PLACEHOLDERS && PLACEHOLDERS[key] == entry
  {
    if key in {"commands", "types", "predicates", "runtime", "reviewed_corrections"} then entry.EmptyArray?
    else if key == "digests" then entry.EmptyObject?
    else if key == "found" then entry.IsFalse?
    else if key == "uncertainty" then entry.IsOne?
    else key in {"summary", "answer"} && entry.EmptyText?
  }

  /** `assertReferenceOnly`: a lookup carries every required field, and nothing but placeholders. */
  predicate IsReferenceOnly(r: Response, schema: Schema)
    ensures IsReferenceOnly(r, schema) <==>
            (&& (forall key :: key in schema.required ==> key in r.fields)
             && forall key :: key in r.fields ==> key in schema.properties && key in PLACEHOLDERS && PLACEHOLDERS[key] == r.fields[key])
  {
    && schema.required <= r.fields.Keys
    && forall key :: key in r.fields ==> key in schema.properties && IsPlaceholder(key, r.fields[key])
  }

  predicate IsFinal(r: Response) {
    r.references.NoReferences? || r.references == Requests(0)
  }

  predicate IsLookup(r: Response, schema: Schema) {
    r.references.Requests? && 1 <= r.references.count <= MAX_REQUESTS && IsReferenceOnly(r, schema)
  }

  /** A turn that must go on: a lookup of one to four pages, with a round to go and pages left for it. */
  ghost predicate MustGoOn(t: Turn, round: nat, pages: nat, schema: Schema) {
    && t.Answered? && t.response.Some? && IsLookup(t.response.value, schema)
    && round < MAX_ROUNDS && pages + t.response.value.references.count <= MAX_PAGES
  }

  /** A turn that asks for more pages than are left to it. */
  ghost predicate OverBudget(t: Turn, round: nat, pages: nat) {
    && t.Answered? && t.response.Some? && t.response.value.references.Requests?
    && var n := t.response.value.references.count;
       n >= 1 && (n > MAX_REQUESTS || pages + n > MAX_PAGES || round == MAX_ROUNDS)
  }

  datatype Ended = Returned(response: Response) | Threw(reason: string)

  /** Calls the rounds before `round` made: each of them answered with a lookup. */
  ghost predicate LookedUp(turns: seq<Turn>, round: nat, schema: Schema) {
    round <= |turns|
    && forall i :: 0 <= i < round ==> turns[i].Answered? && turns[i].response.Some? && IsLookup(turns[i].response.value, schema)
  }

  /** The usage a turn reports, if it was a call at all. A failed call reports nothing. */
  function CallsOf(t: Turn): seq<Usage> {
    match t
    case TooLate => []
    case CallFailed(_) => [UNREPORTED]
    case Unreadable(usage) => [usage]
    case Answered(usage, _) => [usage]
  }

  function AllCalls(turns: seq<Turn>, n: nat): seq<Usage>
    requires n <= |turns|
  {
    if n == 0 then [] else AllCalls(turns, n - 1) + CallsOf(turns[n - 1])
  }

  function PagesOf(turns: seq<Turn>, n: nat): nat
    requires n <= |turns|
  {
    if n == 0 then 0
    else PagesOf(turns, n - 1)
         + if turns[n - 1].Answered? && turns[n - 1].response.Some? && turns[n - 1].response.value.references.Requests?
           then turns[n - 1].response.value.references.count else 0
  }

  /** Readings of token counts are consistent. */
  predicate Readable(t: Turn) {
    match t
    case TooLate => true
    case CallFailed(_) => true
    case Unreadable(usage) => Consistent(usage)
    case Answered(usage, _) => Consistent(usage)
  }

  const BUDGET := "embedded reference lookup budget exhausted"

  /** What came of one turn: go on after a lookup, or end. */
  datatype Verdict = GoOn(pages: nat) | End(ended: Ended)

  /** One round, after its call was paid for. */
  function Judge(t: Turn, round: nat, pages: nat, schema: Schema): (v: Verdict)
    requires round <= MAX_ROUNDS
    ensures v.GoOn? <==> MustGoOn(t, round, pages, schema)
    ensures v.GoOn? ==> v.pages == pages + t.response.value.references.count
    ensures v.End? && v.ended.Returned? <==> t.Answered? && t.response.Some? && IsFinal(t.response.value)
    ensures v.End? && v.ended.Returned? ==> t.response == Some(v.ended.response)
    ensures v == End(Threw(BUDGET)) <==> OverBudget(t, round, pages) || t == CallFailed(BUDGET)
  {
    match t
    case TooLate => End(Threw("model request deadline exceeded"))
    case CallFailed(reason) => End(Threw(reason))
    case Unreadable(_) => End(Threw("invalid_model_response"))
    case Answered(_, None) => End(Threw("invalid structured response"))
    case Answered(_, Some(r)) =>
      match r.references
      case NoReferences => End(Returned(r))
      case NotAList => End(Threw("references must be an array"))
      case Requests(n) =>
        if n == 0 then End(Returned(r))
        else if n > MAX_REQUESTS || pages + n > MAX_PAGES || round == MAX_ROUNDS then End(Threw(BUDGET))
        else if !IsReferenceOnly(r, schema) then End(Threw("reference requests cannot be combined with actions or an answer"))
        else GoOn(pages + n)
  }

  /** Where a run stands after some rounds of lookups. */
  ghost predicate Going(turns: seq<Turn>, round: nat, usage: Usage, pages: nat, schema: Schema) {
    && round <= MAX_ROUNDS < |turns| && LookedUp(turns, round, schema) && pages == PagesOf(turns, round) <= MAX_PAGES
    && Accounts(usage, AllCalls(turns, round)) && |AllCalls(turns, round)| <= round
  }

  lemma NoneCalled(turns: seq<Turn>, schema: Schema)
    requires |turns| > MAX_ROUNDS
    ensures Going(turns, 0, ZERO, 0, schema)
  {
  }

  lemma NextRound(turns: seq<Turn>, round: nat, usage: Usage, pages: nat, schema: Schema, paid: Usage, more: nat)
    requires Going(turns, round, usage, pages, schema) && Accounts(paid, AllCalls(turns, round) + CallsOf(turns[round]))
    requires Judge(turns[round], round, pages, schema) == GoOn(more)
    ensures Going(turns, round + 1, paid, more, schema)
  {
  }

  /** How a run ended: every round before the last asked for lookups, its cost accounts for exactly the calls made, at
      most 4, with at most 8 pages; and it returns exactly a final response, which asks for no reference. It ends only on a
      turn that could not go on, and for want of pages exactly if that turn asked for more than were left. */
  ghost predicate Finished(turns: seq<Turn>, used: nat, ended: Ended, usage: Usage, pages: nat, schema: Schema) {
    && 1 <= used <= MAX_ROUNDS + 1 && used <= |turns| && LookedUp(turns, used - 1, schema)
    && pages == PagesOf(turns, used - 1) <= MAX_PAGES
    && Accounts(usage, AllCalls(turns, used)) && |AllCalls(turns, used)| <= 4
    && var last := turns[used - 1];
       && (ended.Returned? <==> last.Answered? && last.response.Some? && IsFinal(last.response.value))
       && (ended.Returned? ==> last.response == Some(ended.response))
       && !MustGoOn(last, used - 1, pages, schema)
       && (ended == Threw(BUDGET) <==> OverBudget(last, used - 1, pages) || last == CallFailed(BUDGET))
  }

  /** `runStructured` over the turns the model would take. A thrown error adds its own usage, which is zero once the
      call of its round was paid for. */
  method RunStructured(turns: seq<Turn>, schema: Schema) returns (ended: Ended, usage: Usage, used: nat, pages: nat)
    requires |turns| > MAX_ROUNDS && forall i :: 0 <= i < |turns| ==> Readable(turns[i])
    ensures Finished(turns, used, ended, usage, pages, schema)
  {
    hide Judge, Finished, Accounts, LookedUp, MustGoOn;
    NoneCalled(turns, schema);
    usage, pages := ZERO, 0;
    for round := 0 to MAX_ROUNDS + 1
      invariant Going(turns, round, usage, pages, schema)
    {
      var turn := turns[round];
      var paid := Pay(usage, AllCalls(turns, round), turn);
      var verdict := Judge(turn, round, pages, schema);
      match verdict
      case GoOn(more) =>
        NextRound(turns, round, usage, pages, schema, paid, more);
        usage, pages := paid, more;
      case End(e) =>
        ended, used := e, round + 1;
        usage := Close(turns, round, pages, schema, paid, e);
        return;
    }
    assert false;
  }

  /** The last round: an error thrown behind a paid call adds its own usage, which is zero. */
  method Close(turns: seq<Turn>, round: nat, pages: nat, schema: Schema, paid: Usage, e: Ended) returns (usage: Usage)
    requires round <= MAX_ROUNDS < |turns| && LookedUp(turns, round, schema) && pages == PagesOf(turns, round) <= MAX_PAGES
    requires |AllCalls(turns, round)| <= round && Accounts(paid, AllCalls(turns, round) + CallsOf(turns[round]))
    requires Judge(turns[round], round, pages, schema) == End(e)
    ensures Finished(turns, round + 1, e, usage, pages, schema)
  {
    usage := if e.Threw? && turns[round].Answered? then AddUsage(paid, ZERO) else paid;
    LastRound(turns, round, pages, schema, paid, usage, e);
  }

  lemma LastRound(turns: seq<Turn>, round: nat, pages: nat, schema: Schema, paid: Usage, usage: Usage, e: Ended)
    requires round <= MAX_ROUNDS < |turns| && LookedUp(turns, round, schema) && pages == PagesOf(turns, round) <= MAX_PAGES
    requires |AllCalls(turns, round)| <= round && Accounts(paid, AllCalls(turns, round) + CallsOf(turns[round]))
    requires usage == paid || usage == AddUsage(paid, ZERO)
    requires Judge(turns[round], round, pages, schema) == End(e)
    ensures Finished(turns, round + 1, e, usage, pages, schema)
  {
    LastAccount(turns, round, paid, usage);
  }

  lemma LastAccount(turns: seq<Turn>, round: nat, paid: Usage, usage: Usage)
    requires round < |turns| && Accounts(paid, AllCalls(turns, round) + CallsOf(turns[round]))
    requires usage == paid || usage == AddUsage(paid, ZERO)
    ensures Accounts(usage, AllCalls(turns, round + 1))
  {
  }

  /** Adds what one turn cost: a call that failed counts as a call that reported nothing, and one never made as none. */
  method Pay(usage: Usage, ghost before: seq<Usage>, turn: Turn) returns (paid: Usage)
    requires Accounts(usage, before) && Readable(turn)
    ensures Accounts(paid, before + CallsOf(turn))
  {
    match turn
    case TooLate =>
      paid := AddUsage(usage, ZERO);
      assert before + [] == before;
    case CallFailed(_) =>
      paid := AddUsage(usage, UNREPORTED);
      CallAccounted(usage, before, UNREPORTED);
    case Unreadable(cost) =>
      paid := AddUsage(usage, cost);
      CallAccounted(usage, before, cost);
    case Answered(cost, _) =>
      paid := AddUsage(usage, cost);
      CallAccounted(usage, before, cost);
  }

  /** `validateResult`: a final response that is not a valid plan still reports the cost of the whole run. */
  method PlanFrom(turns: seq<Turn>, schema: Schema, isValid: Response -> bool) returns (plan: Option<Response>, usage: Usage, used: nat)
    requires |turns| > MAX_ROUNDS && forall i :: 0 <= i < |turns| ==> Readable(turns[i])
    ensures exists ended, pages :: Finished(turns, used, ended, usage, pages, schema)
    ensures 1 <= used <= |turns| && |AllCalls(turns, used)| <= 4
    ensures var last := turns[used - 1];
      plan == if last.Answered? && last.response.Some? && IsFinal(last.response.value) && isValid(last.response.value) then last.response else None
  {
    var ended, pages;
    ended, usage, used, pages := RunStructured(turns, schema);
    plan := if ended.Returned? && isValid(ended.response) then Some(ended.response) else None;
  }
}
