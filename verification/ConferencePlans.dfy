/** The data migrations of the conference plans: seeding plans, prices and entitlements
    (backend/migrations/versions/b4f7c1a9e6d2_conference_room_plans.py:55-185), and removing the
    seeded prices (backend/migrations/versions/b7d4e9f1a3c8_remove_hardcoded_conference_prices.py:37-90). */
module ConferencePlans {
  import opened Options

  datatype Json = Null | Number(n: int) | Names(names: seq<string>)

  datatype Plan = Plan(id: nat, code: string, product: string, name: string, status: string)

  datatype Price = Price(id: nat, planId: nat, currency: string, amountCents: int, interval: string,
                         status: string)

  datatype Entitlement = Entitlement(id: nat, value: Json)

  /** Plan codes and (plan, key) pairs are unique, so those tables are maps. */
  datatype Tables = Tables(plans: map<string, Plan>, prices: seq<Price>,
                           entitlements: map<(nat, string), Entitlement>)

  datatype PlanSpec = PlanSpec(code: string, name: string, priceCents: int,
                               entitlements: seq<(string, Json)>)

  function Caps(guests: Json, minutes: Json, meetings: Json, tools: seq<string>): seq<(string, Json)> {
    [("conference.max_participants", guests), ("conference.max_duration_minutes", minutes),
     ("conference.max_meetings_per_month", meetings), ("conference.tools", Names(tools))]
  }

  const FREE_TOOLS: seq<string> := ["translation", "polls_qna"]
  const PRO_TOOLS: seq<string> := FREE_TOOLS + ["recording", "transcription"]
  const PREMIUM_TOOLS: seq<string> :=
    PRO_TOOLS + ["ai_notes", "breakout_rooms", "webinar_registration", "analytics"]
  const ENTERPRISE_TOOLS: seq<string> := PREMIUM_TOOLS + ["priority_support"]

  const PLANS: seq<PlanSpec> := [
    PlanSpec("conference_free", "Free", 0, Caps(Number(5), Number(40), Number(20), FREE_TOOLS)),
    PlanSpec("conference_pro", "Pro", 14900, Caps(Number(25), Number(180), Null, PRO_TOOLS)),
    PlanSpec("conference_premium", "Premium", 39900, Caps(Number(100), Number(480), Null, PREMIUM_TOOLS)),
    PlanSpec("conference_enterprise", "Enterprise", 149900, Caps(Null, Null, Null, ENTERPRISE_TOOLS))
  ]

  const SEEDED_PRICES: seq<(string, int)> := [
    ("conference_free", 0), ("conference_pro", 14900), ("conference_premium", 39900),
    ("conference_enterprise", 149900)
  ]

  /** An active monthly ZAR price of a plan. */
  predicate IsActiveMonthly(p: Price, planId: nat) {
    p.planId == planId && p.currency == "ZAR" && p.interval == "month" && p.status == "active"
  }

  predicate HasActiveMonthly(prices: seq<Price>, planId: nat) {
    exists i | 0 <= i < |prices| :: IsActiveMonthly(prices[i], planId)
  }

  function MonthlyPrice(id: nat, planId: nat, amountCents: int): Price {
    Price(id, planId, "ZAR", amountCents, "month", "active")
  }

  // ---------------------------------------------------------------------------------------------
  // What the statements do to the tables; `id` is the fresh uuid a statement brings along

  function InsertPlan(t: Tables, id: nat, spec: PlanSpec): Tables {
    if spec.code in t.plans then t
    else t.(plans := t.plans[spec.code := Plan(id, spec.code, "conference", spec.name, "active")])
  }

  function InsertPriceUnlessActive(t: Tables, id: nat, planId: nat, amountCents: int): Tables {
    if HasActiveMonthly(t.prices, planId) then t
    else t.(prices := t.prices + [MonthlyPrice(id, planId, amountCents)])
  }

  function UpsertEntitlement(t: Tables, id: nat, planId: nat, key: string, value: Json): Tables {
    var k := (planId, key);
    t.(entitlements := t.entitlements[k := if k in t.entitlements then t.entitlements[k].(value := value)
                                           else Entitlement(id, value)])
  }

  function UpsertAll(t: Tables, id: nat, planId: nat, es: seq<(string, Json)>): Tables {
    if es == [] then t
    else
      var n := |es| - 1;
      UpsertEntitlement(UpsertAll(t, id, planId, es[..n]), id + n, planId, es[n].0, es[n].1)
  }

  /** One round of the seeding loop, with ids from `id` on. */
  function SeedPlan(t: Tables, id: nat, spec: PlanSpec): Tables {
    var t1 := InsertPlan(t, id, spec);
    var planId := t1.plans[spec.code].id;
    UpsertAll(InsertPriceUnlessActive(t1, id + 1, planId, spec.priceCents), id + 2, planId, spec.entitlements)
  }

  /** The ids a seeding of these plans draws. */
  function IdsDrawn(specs: seq<PlanSpec>): nat {
    if specs == [] then 0 else IdsDrawn(specs[..|specs| - 1]) + 2 + |specs[|specs| - 1].entitlements|
  }

  function Seed(t: Tables, id: nat, specs: seq<PlanSpec>): Tables {
    if specs == [] then t
    else
      var n := |specs| - 1;
      SeedPlan(Seed(t, id, specs[..n]), id + IdsDrawn(specs[..n]), specs[n])
  }

  /** The DELETE of one seeded price. */
  predicate IsSeeded(plans: map<string, Plan>, seeded: (string, int), p: Price) {
    seeded.0 in plans && IsActiveMonthly(p, plans[seeded.0].id) && p.amountCents == seeded.1
  }

  function Delete(plans: map<string, Plan>, prices: seq<Price>, seeded: (string, int)): seq<Price> {
    if prices == [] then []
    else
      var n := |prices| - 1;
      Delete(plans, prices[..n], seeded) + (if IsSeeded(plans, seeded, prices[n]) then [] else [prices[n]])
  }

  function Remove(t: Tables, seeded: seq<(string, int)>): Tables {
    if seeded == [] then t
    else
      var t1 := Remove(t, seeded[..|seeded| - 1]);
      t1.(prices := Delete(t1.plans, t1.prices, seeded[|seeded| - 1]))
  }

  /** One INSERT of the downgrade. */
  function RestorePrice(t: Tables, id: nat, seeded: (string, int)): Tables {
    if seeded.0 !in t.plans then t
    else InsertPriceUnlessActive(t, id, t.plans[seeded.0].id, seeded.1)
  }

  function Restore(t: Tables, id: nat, seeded: seq<(string, int)>): Tables {
    if seeded == [] then t
    else
      var n := |seeded| - 1;
      RestorePrice(Restore(t, id, seeded[..n]), id + n, seeded[n])
  }

  // ---------------------------------------------------------------------------------------------
  // The migrations

  class Database {
    var plans: map<string, Plan>
    var prices: seq<Price>
    var entitlements: map<(nat, string), Entitlement>
    var nextId: nat

    ghost function View(): Tables
      reads this
    {
      Tables(plans, prices, entitlements)
    }

    method FreshId() returns (id: nat)
      modifies this`nextId
      ensures id == old(nextId) && nextId == id + 1
    {
      id := nextId;
      nextId := nextId + 1;
    }

    method SeedConferencePlans()
      modifies this
      ensures View() == Seed(old(View()), old(nextId), PLANS)
    {
      hide *;
      ghost var before, first := View(), nextId;
      SeedNothing(before, first);
      for i := 0 to |PLANS|
        invariant View() == Seed(before, first, PLANS[..i])
        invariant nextId == first + IdsDrawn(PLANS[..i])
      {
        SeedOneMore(before, first, PLANS, i);
        SeedOnePlan(PLANS[i]);
      }
      assert PLANS[..|PLANS|] == PLANS;
    }

    /** The body of the seeding loop. */
    method SeedOnePlan(spec: PlanSpec)
      modifies this
      ensures View() == SeedPlan(old(View()), old(nextId), spec)
      ensures nextId == old(nextId) + 2 + |spec.entitlements|
    {
      hide HasActiveMonthly;
      var id := FreshId();
      if spec.code !in plans {
        plans := plans[spec.code := Plan(id, spec.code, "conference", spec.name, "active")];
      }
      var planId := plans[spec.code].id;
      id := FreshId();
      if !HasActiveMonthly(prices, planId) {
        prices := prices + [MonthlyPrice(id, planId, spec.priceCents)];
      }
      UpsertEntitlements(planId, spec.entitlements);
    }

    /** The inner loop. */
    method UpsertEntitlements(planId: nat, es: seq<(string, Json)>)
      modifies this`entitlements, this`nextId
      ensures View() == UpsertAll(old(View()), old(nextId), planId, es)
      ensures nextId == old(nextId) + |es|
    {
      ghost var t, first := View(), nextId;
      for i := 0 to |es|
        invariant View() == UpsertAll(t, first, planId, es[..i])
        invariant nextId == first + i
      {
        assert es[..i + 1][..i] == es[..i];
        var (key, value) := es[i];
        var id := FreshId();
        var k := (planId, key);
        entitlements := entitlements[k := if k in entitlements then entitlements[k].(value := value)
                                          else Entitlement(id, value)];
      }
      assert es[..|es|] == es;
    }

    method RemoveSeededPrices()
      modifies this`prices
      ensures View() == Remove(old(View()), SEEDED_PRICES)
    {
      hide Delete;
      ghost var before := View();
      for i := 0 to |SEEDED_PRICES|
        invariant View() == Remove(before, SEEDED_PRICES[..i])
      {
        assert SEEDED_PRICES[..i + 1][..i] == SEEDED_PRICES[..i];
        prices := Delete(plans, prices, SEEDED_PRICES[i]);
      }
      assert SEEDED_PRICES[..|SEEDED_PRICES|] == SEEDED_PRICES;
    }

    method RestoreSeededPrices()
      modifies this`prices, this`nextId
      ensures View() == Restore(old(View()), old(nextId), SEEDED_PRICES)
    {
      ghost var before, first := View(), nextId;
      for i := 0 to |SEEDED_PRICES|
        invariant View() == Restore(before, first, SEEDED_PRICES[..i])
        invariant nextId == first + i
      {
        assert SEEDED_PRICES[..i + 1][..i] == SEEDED_PRICES[..i];
        var (code, amountCents) := SEEDED_PRICES[i];
        var id := FreshId();
        if code !in plans { continue; }
        var planId := plans[code].id;
        if !HasActiveMonthly(prices, planId) {
          prices := prices + [MonthlyPrice(id, planId, amountCents)];
        }
      }
      assert SEEDED_PRICES[..|SEEDED_PRICES|] == SEEDED_PRICES;
    }
  }

  lemma SeedNothing(t: Tables, id: nat)
    ensures Seed(t, id, PLANS[..0]) == t && IdsDrawn(PLANS[..0]) == 0
  {
  }

  lemma SeedOneMore(t: Tables, id: nat, specs: seq<PlanSpec>, i: nat)
    requires i < |specs|
    ensures Seed(t, id, specs[..i + 1]) == SeedPlan(Seed(t, id, specs[..i]), id + IdsDrawn(specs[..i]), specs[i])
    ensures IdsDrawn(specs[..i + 1]) == IdsDrawn(specs[..i]) + 2 + |specs[i].entitlements|
  {
    assert specs[..i + 1][..i] == specs[..i];
  }

  lemma ActiveMonthlyIs(prices: seq<Price>, planId: nat)
    ensures HasActiveMonthly(prices, planId) <==>
            exists p <- prices :: p.planId == planId && p.currency == "ZAR" && p.interval == "month" && p.status == "active"
  {
    if HasActiveMonthly(prices, planId) {
      var i :| 0 <= i < |prices| && IsActiveMonthly(prices[i], planId);
      assert prices[i] in prices;
    }
  }

  // ---------------------------------------------------------------------------------------------
  // Seeding twice is seeding once

  /** Plan ids are a primary key. */
  predicate UniquePlanIds(plans: map<string, Plan>) {
    forall c <- plans, d <- plans :: c != d ==> plans[c].id != plans[d].id
  }

  /** A uuid drawn from now on is no plan's id. */
  predicate FreshFrom(plans: map<string, Plan>, id: nat) {
    forall c <- plans :: plans[c].id < id
  }

  predicate DistinctKeys(es: seq<(string, Json)>) {
    forall i, j | 0 <= i < j < |es| :: es[i].0 != es[j].0
  }

  predicate Holds(ents: map<(nat, string), Entitlement>, planId: nat, e: (string, Json)) {
    (planId, e.0) in ents && ents[(planId, e.0)].value == e.1
  }

  /** Everything the seeding wants for a plan is there. */
  predicate Seeded(t: Tables, spec: PlanSpec) {
    && spec.code in t.plans
    && HasActiveMonthly(t.prices, t.plans[spec.code].id)
    && forall i | 0 <= i < |spec.entitlements| ::
         Holds(t.entitlements, t.plans[spec.code].id, spec.entitlements[i])
  }

  lemma {:induction false} UpsertAllEffect(t: Tables, id: nat, planId: nat, es: seq<(string, Json)>)
    requires DistinctKeys(es)
    ensures var t' := UpsertAll(t, id, planId, es);
            && t'.plans == t.plans && t'.prices == t.prices
            && (forall i | 0 <= i < |es| :: Holds(t'.entitlements, planId, es[i]))
            && (forall k | k in t.entitlements && k.0 != planId ::
                  k in t'.entitlements && t'.entitlements[k] == t.entitlements[k])
            && ((forall i | 0 <= i < |es| :: Holds(t.entitlements, planId, es[i])) ==> t' == t)
  {
    if es != [] {
      UpsertAllEffect(t, id, planId, es[..|es| - 1]);
    }
  }

  lemma SeedPlanEffect(t: Tables, id: nat, spec: PlanSpec)
    requires DistinctKeys(spec.entitlements)
    ensures var t' := SeedPlan(t, id, spec);
            && Seeded(t', spec)
            && (Seeded(t, spec) ==> t' == t)
            && t'.plans == (if spec.code in t.plans then t.plans
                            else t.plans[spec.code := Plan(id, spec.code, "conference", spec.name, "active")])
            && (HasActiveMonthly(t.prices, t'.plans[spec.code].id) ==> t'.prices == t.prices)
            && (!HasActiveMonthly(t.prices, t'.plans[spec.code].id) ==>
                  t'.prices == t.prices + [MonthlyPrice(id + 1, t'.plans[spec.code].id, spec.priceCents)])
            && (forall k | k in t.entitlements && k.0 != t'.plans[spec.code].id ::
                  k in t'.entitlements && t'.entitlements[k] == t.entitlements[k])
  {
    var t1 := InsertPlan(t, id, spec);
    var planId := t1.plans[spec.code].id;
    var t2 := InsertPriceUnlessActive(t1, id + 1, planId, spec.priceCents);
    if !HasActiveMonthly(t1.prices, planId) {
      assert IsActiveMonthly(t2.prices[|t.prices|], planId);
    }
    UpsertAllEffect(t2, id + 2, planId, spec.entitlements);
  }

  /** A round adds an active monthly ZAR price at the list amount, unless the plan has one. */
  lemma SeedPlanPrice(t: Tables, id: nat, spec: PlanSpec)
    requires DistinctKeys(spec.entitlements)
    ensures var t' := SeedPlan(t, id, spec);
            && spec.code in t'.plans
            && var planId := t'.plans[spec.code].id;
               t'.prices
               == if exists p <- t.prices ::
                       p.planId == planId && p.currency == "ZAR" && p.interval == "month" && p.status == "active"
                  then t.prices
                  else t.prices + [Price(id + 1, planId, "ZAR", spec.priceCents, "month", "active")]
  {
    hide SeedPlan, HasActiveMonthly;
    SeedPlanEffect(t, id, spec);
    ActiveMonthlyIs(t.prices, SeedPlan(t, id, spec).plans[spec.code].id);
  }

  lemma SeedPlanKeepsOthers(t: Tables, id: nat, spec: PlanSpec, other: PlanSpec)
    requires DistinctKeys(spec.entitlements) && other.code != spec.code
    requires UniquePlanIds(t.plans) && FreshFrom(t.plans, id) && Seeded(t, other)
    ensures Seeded(SeedPlan(t, id, spec), other)
  {
    SeedPlanEffect(t, id, spec);
    var t' := SeedPlan(t, id, spec);
    var otherId := t.plans[other.code].id;
    assert t'.plans[spec.code].id != otherId;
    var i :| 0 <= i < |t.prices| && IsActiveMonthly(t.prices[i], otherId);
    assert IsActiveMonthly(t'.prices[i], otherId);
    forall j | 0 <= j < |other.entitlements| ensures Holds(t'.entitlements, otherId, other.entitlements[j]) {
      assert Holds(t.entitlements, otherId, other.entitlements[j]);
    }
  }

  lemma SeedPlanKeepsIds(t: Tables, id: nat, spec: PlanSpec)
    requires DistinctKeys(spec.entitlements)
    requires UniquePlanIds(t.plans) && FreshFrom(t.plans, id)
    ensures UniquePlanIds(SeedPlan(t, id, spec).plans)
    ensures FreshFrom(SeedPlan(t, id, spec).plans, id + 2)
  {
    SeedPlanEffect(t, id, spec);
  }

  predicate ProperSpecs(specs: seq<PlanSpec>) {
    && (forall i | 0 <= i < |specs| :: DistinctKeys(specs[i].entitlements))
    && (forall i, j | 0 <= i < j < |specs| :: specs[i].code != specs[j].code)
  }

  lemma {:induction false} SeedSeeds(t: Tables, id: nat, specs: seq<PlanSpec>)
    requires ProperSpecs(specs) && UniquePlanIds(t.plans) && FreshFrom(t.plans, id)
    ensures var t' := Seed(t, id, specs);
            && UniquePlanIds(t'.plans) && FreshFrom(t'.plans, id + IdsDrawn(specs))
            && forall i | 0 <= i < |specs| :: Seeded(t', specs[i])
  {
    hide SeedPlan, Seeded, UniquePlanIds, DistinctKeys;
    if specs != [] {
      var n := |specs| - 1;
      var t1, id1 := Seed(t, id, specs[..n]), id + IdsDrawn(specs[..n]);
      SeedSeeds(t, id, specs[..n]);
      SeedPlanEffect(t1, id1, specs[n]);
      SeedPlanKeepsIds(t1, id1, specs[n]);
      forall i | 0 <= i < n ensures Seeded(SeedPlan(t1, id1, specs[n]), specs[i]) {
        assert specs[..n][i] == specs[i];
        SeedPlanKeepsOthers(t1, id1, specs[n], specs[i]);
      }
    }
  }

  lemma {:induction false} SeedNoop(t: Tables, id: nat, specs: seq<PlanSpec>)
    requires ProperSpecs(specs) && forall i | 0 <= i < |specs| :: Seeded(t, specs[i])
    ensures Seed(t, id, specs) == t
  {
    hide SeedPlan, Seeded;
    if specs != [] {
      var n := |specs| - 1;
      SeedNoop(t, id, specs[..n]);
      SeedPlanEffect(t, id + IdsDrawn(specs[..n]), specs[n]);
    }
  }

  lemma CapsAreDistinct(guests: Json, minutes: Json, meetings: Json, tools: seq<string>)
    ensures DistinctKeys(Caps(guests, minutes, meetings, tools))
  {
    var es := Caps(guests, minutes, meetings, tools);
    assert |es[0].0| == 27 && |es[1].0| == 31 && |es[2].0| == 33 && |es[3].0| == 16;
  }

  lemma PlansAreProper()
    ensures ProperSpecs(PLANS)
  {
    hide Caps;
    CapsAreDistinct(Number(5), Number(40), Number(20), FREE_TOOLS);
    CapsAreDistinct(Number(25), Number(180), Null, PRO_TOOLS);
    CapsAreDistinct(Number(100), Number(480), Null, PREMIUM_TOOLS);
    CapsAreDistinct(Null, Null, Null, ENTERPRISE_TOOLS);
    assert |PLANS[0].code| == 15 && |PLANS[1].code| == 14 && |PLANS[2].code| == 18 && |PLANS[3].code| == 21;
  }

  /** For any starting tables, running the seeding again, with whatever new uuids, changes nothing;
      the first run leaves every plan with its entitlements and an active monthly price. */
  lemma {:induction false} SeedTwiceIsOnce(t: Tables, id: nat, id': nat)
    requires UniquePlanIds(t.plans) && FreshFrom(t.plans, id)
    ensures Seed(Seed(t, id, PLANS), id', PLANS) == Seed(t, id, PLANS)
    ensures forall i | 0 <= i < |PLANS| :: Seeded(Seed(t, id, PLANS), PLANS[i])
  {
    PlansAreProper();
    SeedSeeds(t, id, PLANS);
    SeedNoop(Seed(t, id, PLANS), id', PLANS);
  }

  /** A plan's row, its monthly price and its four entitlements. */
  predicate Complete(t: Tables, code: string, guests: Json, minutes: Json, meetings: Json, tools: seq<string>) {
    && code in t.plans
    && var id := t.plans[code].id;
       && (exists p <- t.prices :: p.planId == id && p.currency == "ZAR" && p.interval == "month" && p.status == "active")
       && EntitlementIs(t, id, "conference.max_participants", guests)
       && EntitlementIs(t, id, "conference.max_duration_minutes", minutes)
       && EntitlementIs(t, id, "conference.max_meetings_per_month", meetings)
       && EntitlementIs(t, id, "conference.tools", Names(tools))
  }

  predicate EntitlementIs(t: Tables, planId: nat, key: string, value: Json) {
    (planId, key) in t.entitlements && t.entitlements[(planId, key)].value == value
  }

  lemma SeededIsComplete(t: Tables, spec: PlanSpec, guests: Json, minutes: Json, meetings: Json, tools: seq<string>)
    requires Seeded(t, spec) && spec.entitlements == Caps(guests, minutes, meetings, tools)
    ensures Complete(t, spec.code, guests, minutes, meetings, tools)
  {
    ActiveMonthlyIs(t.prices, t.plans[spec.code].id);
    var es, id := spec.entitlements, t.plans[spec.code].id;
    assert Holds(t.entitlements, id, es[0]) && Holds(t.entitlements, id, es[1]);
    assert Holds(t.entitlements, id, es[2]) && Holds(t.entitlements, id, es[3]);
  }

  lemma ToolsAre()
    ensures PRO_TOOLS == ["translation", "polls_qna", "recording", "transcription"]
    ensures PREMIUM_TOOLS == ["translation", "polls_qna", "recording", "transcription", "ai_notes", "breakout_rooms",
                              "webinar_registration", "analytics"]
    ensures ENTERPRISE_TOOLS == ["translation", "polls_qna", "recording", "transcription", "ai_notes",
                                 "breakout_rooms", "webinar_registration", "analytics", "priority_support"]
  {
  }

  /** What the seeding leaves behind, plan by plan, whatever was there before. */
  lemma SeedingCompletes(t: Tables, id: nat)
    requires UniquePlanIds(t.plans) && FreshFrom(t.plans, id)
    ensures var t' := Seed(t, id, PLANS);
            && Complete(t', "conference_free", Number(5), Number(40), Number(20), ["translation", "polls_qna"])
            && Complete(t', "conference_pro", Number(25), Number(180), Null,
                        ["translation", "polls_qna", "recording", "transcription"])
            && Complete(t', "conference_premium", Number(100), Number(480), Null,
                        ["translation", "polls_qna", "recording", "transcription", "ai_notes", "breakout_rooms",
                         "webinar_registration", "analytics"])
            && Complete(t', "conference_enterprise", Null, Null, Null,
                        ["translation", "polls_qna", "recording", "transcription", "ai_notes", "breakout_rooms",
                         "webinar_registration", "analytics", "priority_support"])
  {
    hide Seeded, Complete, Caps, Seed, UniquePlanIds, FreshFrom;
    SeedTwiceIsOnce(t, id, id);
    ToolsAre();
    var t' := Seed(t, id, PLANS);
    SeededIsComplete(t', PLANS[0], Number(5), Number(40), Number(20), FREE_TOOLS);
    SeededIsComplete(t', PLANS[1], Number(25), Number(180), Null, PRO_TOOLS);
    SeededIsComplete(t', PLANS[2], Number(100), Number(480), Null, PREMIUM_TOOLS);
    SeededIsComplete(t', PLANS[3], Null, Null, Null, ENTERPRISE_TOOLS);
  }

  // ---------------------------------------------------------------------------------------------
  // Removing the seeded prices

  predicate AnySeeded(plans: map<string, Plan>, seeded: seq<(string, int)>, p: Price) {
    exists i | 0 <= i < |seeded| :: IsSeeded(plans, seeded[i], p)
  }

  /** The prices no DELETE matches, in their order. */
  function Unseeded(plans: map<string, Plan>, seeded: seq<(string, int)>, prices: seq<Price>): seq<Price> {
    if prices == [] then []
    else
      var n := |prices| - 1;
      Unseeded(plans, seeded, prices[..n]) + (if AnySeeded(plans, seeded, prices[n]) then [] else [prices[n]])
  }

  lemma {:induction false} UnseededAppend(plans: map<string, Plan>, seeded: seq<(string, int)>,
                                          a: seq<Price>, b: seq<Price>)
    ensures Unseeded(plans, seeded, a + b) == Unseeded(plans, seeded, a) + Unseeded(plans, seeded, b)
  {
    if b == [] {
      assert a + b == a;
    } else {
      var n := |b| - 1;
      assert (a + b)[..|a| + n] == a + b[..n];
      UnseededAppend(plans, seeded, a, b[..n]);
    }
  }

  lemma {:induction false} UnseededOfNone(plans: map<string, Plan>, prices: seq<Price>)
    ensures Unseeded(plans, [], prices) == prices
  {
    if prices != [] { UnseededOfNone(plans, prices[..|prices| - 1]); }
  }

  lemma {:induction false} DeleteNext(plans: map<string, Plan>, seeded: seq<(string, int)>, s: (string, int),
                                      prices: seq<Price>)
    ensures Delete(plans, Unseeded(plans, seeded, prices), s) == Unseeded(plans, seeded + [s], prices)
  {
    hide AnySeeded, IsSeeded;
    if prices != [] {
      var n := |prices| - 1;
      var rest := Unseeded(plans, seeded, prices[..n]);
      assert (rest + [prices[n]])[..|rest|] == rest && rest + [] == rest;
      DeleteNext(plans, seeded, s, prices[..n]);
      AnyOfMore(plans, seeded, s, prices[n]);
    }
  }

  lemma AnyOfMore(plans: map<string, Plan>, seeded: seq<(string, int)>, s: (string, int), p: Price)
    ensures AnySeeded(plans, seeded + [s], p) <==> AnySeeded(plans, seeded, p) || IsSeeded(plans, s, p)
  {
    var all := seeded + [s];
    if AnySeeded(plans, seeded, p) {
      var i :| 0 <= i < |seeded| && IsSeeded(plans, seeded[i], p);
      assert all[i] == seeded[i];
    }
    assert all[|seeded|] == s;
  }

  /** The four DELETEs together drop exactly the seeded prices: rows of the four plans that are
      monthly, active, in ZAR and of the seeded amount. Every other row stays, in its place. */
  lemma {:induction false} RemoveIsUnseeded(t: Tables, seeded: seq<(string, int)>)
    ensures Remove(t, seeded) == t.(prices := Unseeded(t.plans, seeded, t.prices))
  {
    if seeded == [] {
      UnseededOfNone(t.plans, t.prices);
    } else {
      var init, s := seeded[..|seeded| - 1], seeded[|seeded| - 1];
      RemoveIsUnseeded(t, init);
      DeleteNext(t.plans, init, s, t.prices);
      assert init + [s] == seeded;
    }
  }

  lemma {:induction false} UnseededMembers(plans: map<string, Plan>, seeded: seq<(string, int)>,
                                           prices: seq<Price>, p: Price)
    ensures p in Unseeded(plans, seeded, prices) <==> p in prices && !AnySeeded(plans, seeded, p)
  {
    hide AnySeeded;
    if prices != [] {
      var n := |prices| - 1;
      UnseededMembers(plans, seeded, prices[..n], p);
      assert prices == prices[..n] + [prices[n]];
    }
  }

  /** The list prices in cents. */
  predicate ListPrice(code: string, cents: int) {
    match code
    case "conference_free" => cents == 0
    case "conference_pro" => cents == 14900
    case "conference_premium" => cents == 39900
    case "conference_enterprise" => cents == 149900
    case _ => false
  }

  predicate ListPriceOf(plans: map<string, Plan>, p: Price) {
    exists code <- plans :: plans[code].id == p.planId && ListPrice(code, p.amountCents)
  }

  lemma AnySeededIs(plans: map<string, Plan>, p: Price)
    ensures AnySeeded(plans, SEEDED_PRICES, p) <==>
            p.currency == "ZAR" && p.interval == "month" && p.status == "active" && ListPriceOf(plans, p)
  {
    if AnySeeded(plans, SEEDED_PRICES, p) {
      var i :| 0 <= i < |SEEDED_PRICES| && IsSeeded(plans, SEEDED_PRICES[i], p);
      assert ListPrice(SEEDED_PRICES[i].0, p.amountCents);
    }
    if p.currency == "ZAR" && p.interval == "month" && p.status == "active" && ListPriceOf(plans, p) {
      var code :| code in plans && plans[code].id == p.planId && ListPrice(code, p.amountCents);
      var i := if code == "conference_free" then 0 else if code == "conference_pro" then 1
               else if code == "conference_premium" then 2 else 3;
      assert IsSeeded(plans, SEEDED_PRICES[i], p);
    }
  }

  /** The upgrade deletes exactly the active monthly ZAR prices that have a plan's list amount. */
  lemma RemovedIff(t: Tables, p: Price)
    ensures p in Remove(t, SEEDED_PRICES).prices <==>
            && p in t.prices
            && !(p.currency == "ZAR" && p.interval == "month" && p.status == "active" && ListPriceOf(t.plans, p))
  {
    hide AnySeeded;
    RemoveIsUnseeded(t, SEEDED_PRICES);
    UnseededMembers(t.plans, SEEDED_PRICES, t.prices, p);
    AnySeededIs(t.plans, p);
  }

  lemma {:induction false} UnseededOfSeeded(plans: map<string, Plan>, seeded: seq<(string, int)>, prices: seq<Price>)
    requires forall i | 0 <= i < |prices| :: AnySeeded(plans, seeded, prices[i])
    ensures Unseeded(plans, seeded, prices) == []
  {
    if prices != [] { UnseededOfSeeded(plans, seeded, prices[..|prices| - 1]); }
  }

  lemma {:induction false} UnseededTwice(plans: map<string, Plan>, seeded: seq<(string, int)>, prices: seq<Price>)
    ensures var kept := Unseeded(plans, seeded, prices);
            Unseeded(plans, seeded, kept) == kept
  {
    hide AnySeeded;
    if prices != [] {
      var n := |prices| - 1;
      var rest := Unseeded(plans, seeded, prices[..n]);
      UnseededTwice(plans, seeded, prices[..n]);
      assert (rest + [prices[n]])[..|rest|] == rest && rest + [] == rest;
    }
  }

  /** A price an admin set to another amount is never touched. */
  lemma {:induction false} OtherAmountsStay(t: Tables, p: Price)
    requires p in t.prices
    requires forall i | 0 <= i < |SEEDED_PRICES| ::
               var (code, seeded) := SEEDED_PRICES[i];
               code in t.plans && t.plans[code].id == p.planId ==> p.amountCents != seeded
    ensures p in Remove(t, SEEDED_PRICES).prices
  {
    RemoveIsUnseeded(t, SEEDED_PRICES);
    UnseededMembers(t.plans, SEEDED_PRICES, t.prices, p);
  }

  /** The downgrade only appends seeded prices. */
  lemma {:induction false} RestoreAppends(t: Tables, id: nat, seeded: seq<(string, int)>, all: seq<(string, int)>)
    returns (extra: seq<Price>)
    requires seeded <= all
    ensures Restore(t, id, seeded) == t.(prices := t.prices + extra)
    ensures forall i | 0 <= i < |extra| :: AnySeeded(t.plans, all, extra[i])
  {
    if seeded == [] {
      extra := [];
      assert t.prices + extra == t.prices;
    } else {
      var n := |seeded| - 1;
      var s := seeded[n];
      extra := RestoreAppends(t, id, seeded[..n], all);
      var t1 := Restore(t, id, seeded[..n]);
      if s.0 in t.plans && !HasActiveMonthly(t1.prices, t.plans[s.0].id) {
        var p := MonthlyPrice(id + n, t.plans[s.0].id, s.1);
        assert IsSeeded(t.plans, all[n], p);
        assert t.prices + extra + [p] == t.prices + (extra + [p]);
        extra := extra + [p];
      }
    }
  }

  predicate DistinctCodes(seeded: seq<(string, int)>) {
    forall i, j | 0 <= i < j < |seeded| :: seeded[i].0 != seeded[j].0
  }

  lemma {:induction false} RestoreEffect(t: Tables, id: nat, seeded: seq<(string, int)>, i: nat)
    requires UniquePlanIds(t.plans) && DistinctCodes(seeded) && i < |seeded| && seeded[i].0 in t.plans
    ensures var (planId, t') := (t.plans[seeded[i].0].id, Restore(t, id, seeded));
            && HasActiveMonthly(t'.prices, planId)
            && (!HasActiveMonthly(t.prices, planId) ==> MonthlyPrice(id + i, planId, seeded[i].1) in t'.prices)
  {
    hide HasActiveMonthly, AnySeeded;
    var n := |seeded| - 1;
    var init, s, planId := seeded[..n], seeded[n], t.plans[seeded[i].0].id;
    var extra := RestoreAppends(t, id, init, init);
    var t1 := Restore(t, id, init);
    if i < n {
      RestoreEffect(t, id, init, i);
      if s.0 in t.plans { StillActive(t1.prices, MonthlyPrice(id + n, t.plans[s.0].id, s.1), planId); }
    } else {
      OthersDoNotCount(t, init, extra, planId, s.0);
      NowActive(t1.prices, MonthlyPrice(id + n, planId, s.1), planId);
    }
  }

  lemma StillActive(prices: seq<Price>, p: Price, planId: nat)
    requires HasActiveMonthly(prices, planId)
    ensures HasActiveMonthly(prices + [p], planId)
  {
    var i :| 0 <= i < |prices| && IsActiveMonthly(prices[i], planId);
    assert IsActiveMonthly((prices + [p])[i], planId);
  }

  lemma NowActive(prices: seq<Price>, p: Price, planId: nat)
    requires IsActiveMonthly(p, planId)
    ensures HasActiveMonthly(prices + [p], planId)
  {
    assert (prices + [p])[|prices|] == p;
  }

  lemma OthersDoNotCount(t: Tables, seeded: seq<(string, int)>, extra: seq<Price>, planId: nat, code: string)
    requires UniquePlanIds(t.plans) && code in t.plans && t.plans[code].id == planId
    requires forall i | 0 <= i < |seeded| :: seeded[i].0 != code
    requires forall i | 0 <= i < |extra| :: AnySeeded(t.plans, seeded, extra[i])
    ensures HasActiveMonthly(t.prices + extra, planId) ==> HasActiveMonthly(t.prices, planId)
  {
    forall i | 0 <= i < |extra| ensures !IsActiveMonthly(extra[i], planId) {
      OtherPlan(t, seeded, extra[i], code);
    }
    if HasActiveMonthly(t.prices + extra, planId) {
      var i :| 0 <= i < |t.prices + extra| && IsActiveMonthly((t.prices + extra)[i], planId);
      assert IsActiveMonthly(t.prices[i], planId);
    }
  }

  lemma OtherPlan(t: Tables, seeded: seq<(string, int)>, p: Price, code: string)
    requires UniquePlanIds(t.plans) && code in t.plans
    requires forall i | 0 <= i < |seeded| :: seeded[i].0 != code
    requires AnySeeded(t.plans, seeded, p)
    ensures p.planId != t.plans[code].id
  {
    var k :| 0 <= k < |seeded| && IsSeeded(t.plans, seeded[k], p);
    assert seeded[k].0 != code;
  }

  /** After the downgrade every one of the four plans that exists has an active monthly ZAR price, and
      one that had none has its list price. */
  lemma RollbackRestores(t: Tables, id: nat, code: string, cents: int)
    requires UniquePlanIds(t.plans) && code in t.plans && ListPrice(code, cents)
    ensures var planId := t.plans[code].id;
            && var prices := Restore(t, id, SEEDED_PRICES).prices;
               && (exists p <- prices ::
                     p.planId == planId && p.currency == "ZAR" && p.interval == "month" && p.status == "active")
               && ((forall p <- t.prices :: !(p.planId == planId && p.currency == "ZAR" && p.interval == "month"
                                              && p.status == "active"))
                   ==> exists p <- prices :: p == Price(p.id, planId, "ZAR", cents, "month", "active"))
  {
    hide Restore, UniquePlanIds;
    var planId := t.plans[code].id;
    var i := if code == "conference_free" then 0 else if code == "conference_pro" then 1
             else if code == "conference_premium" then 2 else 3;
    assert SEEDED_PRICES[i] == (code, cents);
    CodesAreDistinct();
    RestoreEffect(t, id, SEEDED_PRICES, i);
    ActiveMonthlyIs(t.prices, planId);
    ActiveMonthlyIs(Restore(t, id, SEEDED_PRICES).prices, planId);
  }

  lemma CodesAreDistinct()
    ensures DistinctCodes(SEEDED_PRICES)
  {
    assert |SEEDED_PRICES[0].0| == 15 && |SEEDED_PRICES[1].0| == 14;
    assert |SEEDED_PRICES[2].0| == 18 && |SEEDED_PRICES[3].0| == 21;
  }

  /** Upgrade, downgrade, upgrade again: the same as upgrading once. */
  lemma {:induction false} UpgradeAfterRollback(t: Tables, id: nat)
    ensures Remove(Restore(Remove(t, SEEDED_PRICES), id, SEEDED_PRICES), SEEDED_PRICES)
            == Remove(t, SEEDED_PRICES)
  {
    var u := Remove(t, SEEDED_PRICES);
    RemoveIsUnseeded(t, SEEDED_PRICES);
    UnseededTwice(t.plans, SEEDED_PRICES, t.prices);
    var extra := RestoreAppends(u, id, SEEDED_PRICES, SEEDED_PRICES);
    RemoveIsUnseeded(Restore(u, id, SEEDED_PRICES), SEEDED_PRICES);
    UnseededAppend(u.plans, SEEDED_PRICES, u.prices, extra);
    UnseededOfSeeded(u.plans, SEEDED_PRICES, extra);
    assert u.prices + [] == u.prices;
  }

  /** The plans only grow, by plans with uuids drawn from `id` on. */
  predicate PlansGrow(before: map<string, Plan>, after: map<string, Plan>, id: nat) {
    && (forall c <- before :: c in after && after[c] == before[c])
    && (forall c <- after :: c !in before ==> after[c].id >= id)
  }

  predicate PriceOf(plans: map<string, Plan>, specs: seq<PlanSpec>, p: Price) {
    exists i | 0 <= i < |specs| :: IsSeeded(plans, (specs[i].code, specs[i].priceCents), p)
  }

  /** The seeding appends nothing to the prices but list prices of its plans. */
  lemma {:induction false} SeedAppends(t: Tables, id: nat, specs: seq<PlanSpec>) returns (extra: seq<Price>)
    requires ProperSpecs(specs)
    ensures var t' := Seed(t, id, specs);
            && PlansGrow(t.plans, t'.plans, id)
            && t'.prices == t.prices + extra
            && forall i | 0 <= i < |extra| :: PriceOf(t'.plans, specs, extra[i])
  {
    hide SeedPlan, PriceOf, Seeded, HasActiveMonthly, ProperSpecs, IsSeeded;
    if specs == [] {
      extra := [];
      assert t.prices + extra == t.prices;
    } else {
      var n := |specs| - 1;
      var spec := specs[n];
      var t1, id1 := Seed(t, id, specs[..n]), id + IdsDrawn(specs[..n]);
      ProperPrefix(specs);
      var init := SeedAppends(t, id, specs[..n]);
      SeedPlanEffect(t1, id1, spec);
      var t' := SeedPlan(t1, id1, spec);
      forall i | 0 <= i < |init| ensures PriceOf(t'.plans, specs, init[i]) {
        StillPriceOf(t1.plans, t'.plans, specs, n, init[i]);
      }
      var added := t'.prices[|t1.prices|..];
      extra := init + added;
      assert t'.prices == t1.prices + added && t.prices + init + added == t.prices + extra;
      forall i | 0 <= i < |added| ensures PriceOf(t'.plans, specs, added[i]) {
        AddedPrice(t'.plans[spec.code].id, spec, t'.plans, id1 + 1);
        LastPriceOf(t'.plans, specs, added[i]);
      }
    }
  }

  lemma ProperPrefix(specs: seq<PlanSpec>)
    requires specs != [] && ProperSpecs(specs)
    ensures ProperSpecs(specs[..|specs| - 1]) && DistinctKeys(specs[|specs| - 1].entitlements)
  {
  }

  lemma AddedPrice(planId: nat, spec: PlanSpec, plans: map<string, Plan>, id: nat)
    requires spec.code in plans && plans[spec.code].id == planId
    ensures IsSeeded(plans, (spec.code, spec.priceCents), MonthlyPrice(id, planId, spec.priceCents))
  {
  }

  lemma LastPriceOf(plans: map<string, Plan>, specs: seq<PlanSpec>, p: Price)
    requires specs != []
    requires var spec := specs[|specs| - 1]; IsSeeded(plans, (spec.code, spec.priceCents), p)
    ensures PriceOf(plans, specs, p)
  {
  }

  lemma StillPriceOf(before: map<string, Plan>, after: map<string, Plan>, specs: seq<PlanSpec>, n: nat, p: Price)
    requires n <= |specs| && PriceOf(before, specs[..n], p)
    requires forall c <- before :: c in after && after[c] == before[c]
    ensures PriceOf(after, specs, p)
  {
    var i :| 0 <= i < n && IsSeeded(before, (specs[..n][i].code, specs[..n][i].priceCents), p);
    assert IsSeeded(after, (specs[i].code, specs[i].priceCents), p);
  }

  lemma ListPricesAreSeeded(plans: map<string, Plan>, p: Price)
    requires PriceOf(plans, PLANS, p)
    ensures AnySeeded(plans, SEEDED_PRICES, p)
  {
    hide Caps;
    var i :| 0 <= i < |PLANS| && IsSeeded(plans, (PLANS[i].code, PLANS[i].priceCents), p);
    assert SEEDED_PRICES[i] == (PLANS[i].code, PLANS[i].priceCents);
  }

  lemma {:induction false} UnseededInGrownPlans(before: map<string, Plan>, after: map<string, Plan>, id: nat,
                                                seeded: seq<(string, int)>, prices: seq<Price>)
    requires PlansGrow(before, after, id)
    requires forall i | 0 <= i < |prices| :: prices[i].planId < id
    ensures Unseeded(after, seeded, prices) == Unseeded(before, seeded, prices)
  {
    if prices != [] {
      var n := |prices| - 1;
      UnseededInGrownPlans(before, after, id, seeded, prices[..n]);
      forall i | 0 <= i < |seeded|
        ensures IsSeeded(after, seeded[i], prices[n]) <==> IsSeeded(before, seeded[i], prices[n])
      {
      }
    }
  }

  /** The later migration takes out exactly the prices the earlier one put in: after both, the prices
      are those the removal alone would have left. */
  lemma {:induction false} RemovalUndoesSeeding(t: Tables, id: nat)
    requires forall i | 0 <= i < |t.prices| :: t.prices[i].planId < id
    ensures Remove(Seed(t, id, PLANS), SEEDED_PRICES).prices == Remove(t, SEEDED_PRICES).prices
  {
    PlansAreProper();
    var t' := Seed(t, id, PLANS);
    var extra := SeedAppends(t, id, PLANS);
    RemoveIsUnseeded(t', SEEDED_PRICES);
    RemoveIsUnseeded(t, SEEDED_PRICES);
    UnseededAppend(t'.plans, SEEDED_PRICES, t.prices, extra);
    UnseededInGrownPlans(t.plans, t'.plans, id, SEEDED_PRICES, t.prices);
    forall i | 0 <= i < |extra| ensures AnySeeded(t'.plans, SEEDED_PRICES, extra[i]) {
      ListPricesAreSeeded(t'.plans, extra[i]);
    }
    UnseededOfSeeded(t'.plans, SEEDED_PRICES, extra);
    assert Unseeded(t.plans, SEEDED_PRICES, t.prices) + [] == Unseeded(t.plans, SEEDED_PRICES, t.prices);
  }

  /** The only prices of a plan the seeding creates are active monthly ZAR prices of its list amount. */
  lemma NewPlanHasListPrice(t: Tables, id: nat, code: string, cents: int)
    requires UniquePlanIds(t.plans) && FreshFrom(t.plans, id)
    requires forall i | 0 <= i < |t.prices| :: t.prices[i].planId < id
    requires code !in t.plans && ListPrice(code, cents)
    ensures var t' := Seed(t, id, PLANS);
            && code in t'.plans
            && forall p <- t'.prices :: p.planId == t'.plans[code].id ==>
                 p == Price(p.id, p.planId, "ZAR", cents, "month", "active")
  {
    hide Seed, PriceOf, Seeded, Caps, FreshFrom;
    PlansAreProper();
    var t' := Seed(t, id, PLANS);
    var extra := SeedAppends(t, id, PLANS);
    SeedSeeds(t, id, PLANS);
    CodeIsSeeded(t', code, cents);
    forall p | p in t'.prices && p.planId == t'.plans[code].id
      ensures p == Price(p.id, p.planId, "ZAR", cents, "month", "active")
    {
      assert p !in t.prices;
      assert p in extra;
      ListPricesAreSeeded(t'.plans, p);
      AnySeededIs(t'.plans, p);
      ListPriceOfPlan(t'.plans, code, cents, p);
    }
  }

  lemma CodeIsSeeded(t: Tables, code: string, cents: int)
    requires ListPrice(code, cents) && forall i | 0 <= i < |PLANS| :: Seeded(t, PLANS[i])
    ensures code in t.plans
  {
    hide Caps;
    assert PLANS[0].code in t.plans && PLANS[1].code in t.plans && PLANS[2].code in t.plans && PLANS[3].code in t.plans;
  }

  lemma ListPriceOfPlan(plans: map<string, Plan>, code: string, cents: int, p: Price)
    requires UniquePlanIds(plans) && code in plans && plans[code].id == p.planId
    requires ListPriceOf(plans, p) && ListPrice(code, cents)
    ensures p.amountCents == cents
  {
    var other :| other in plans && plans[other].id == p.planId && ListPrice(other, p.amountCents);
    assert other == code;
  }

  lemma {:induction false} NewPlansAre(t: Tables, id: nat, specs: seq<PlanSpec>, code: string)
    requires ProperSpecs(specs) && code !in t.plans && code in Seed(t, id, specs).plans
    ensures exists i | 0 <= i < |specs| ::
              && specs[i].code == code
              && Seed(t, id, specs).plans[code]
                 == Plan(Seed(t, id, specs).plans[code].id, code, "conference", specs[i].name, "active")
  {
    hide SeedPlan, ProperSpecs, Seeded, HasActiveMonthly;
    var n := |specs| - 1;
    ProperPrefix(specs);
    SeedPlanEffect(Seed(t, id, specs[..n]), id + IdsDrawn(specs[..n]), specs[n]);
    if code in Seed(t, id, specs[..n]).plans {
      NewPlansAre(t, id, specs[..n], code);
      var i :| 0 <= i < n && specs[..n][i].code == code
               && Seed(t, id, specs[..n]).plans[code]
                  == Plan(Seed(t, id, specs[..n]).plans[code].id, code, "conference", specs[..n][i].name, "active");
      assert specs[i].code == code;
    }
  }

  /** The plans the seeding creates are active conference plans with these names. */
  lemma NewPlanRows(t: Tables, id: nat, code: string)
    requires code !in t.plans && code in Seed(t, id, PLANS).plans
    ensures var plan := Seed(t, id, PLANS).plans[code];
            && plan.code == code && plan.product == "conference" && plan.status == "active"
            && (code, plan.name) in {("conference_free", "Free"), ("conference_pro", "Pro"),
                                     ("conference_premium", "Premium"), ("conference_enterprise", "Enterprise")}
  {
    hide Seed, Caps;
    PlansAreProper();
    NewPlansAre(t, id, PLANS, code);
  }
}
