/** The package contract and the review decision, said over the decoded document: which texts stand where. */
module PackageRules {
  import opened Wrappers
  import opened Json
  import opened SkillValidation
  import opened SkillPackage
  import opened SkillActions

  // ---------- reading fields ----------

  /** Of several entries under one key, the first counts. */
  predicate FirstAt(entries: seq<(string, Json)>, i: nat, key: string) {
    i < |entries| && entries[i].0 == key && forall k | 0 <= k < i :: entries[k].0 != key
  }

  lemma {:induction false} FindIsFirst(entries: seq<(string, Json)>, key: string)
    ensures forall i: nat | FirstAt(entries, i, key) :: Find(entries, key) == Some(entries[i].1)
    ensures (forall i | 0 <= i < |entries| :: entries[i].0 != key) ==> Find(entries, key) == None
  {
    if entries != [] {
      FindIsFirst(entries[1..], key);
      forall i: nat | FirstAt(entries, i, key)
        ensures Find(entries, key) == Some(entries[i].1)
      {
        assert i > 0 ==> FirstAt(entries[1..], i - 1, key);
      }
    }
  }

  predicate Blank(c: char) {
    var n := c as int;
    || 9 <= n <= 13 || 28 <= n <= 32 || n == 0x85 || n == 0xA0 || n == 0x1680 || 0x2000 <= n <= 0x200A
    || n == 0x2028 || n == 0x2029 || n == 0x202F || n == 0x205F || n == 0x3000
  }

  predicate NoBlankEnds(s: string) {
    s != "" ==> !Blank(s[0]) && !Blank(s[|s| - 1])
  }

  /** The text of a name: not empty and without blanks around it. */
  predicate Word(v: Option<Json>) {
    v.Some? && v.value.Str? && v.value.s != "" && NoBlankEnds(v.value.s)
  }

  predicate Missing(v: Option<Json>) {
    v == None || v == Some(Null)
  }

  predicate Says(j: Json, key: string, text: string) {
    Field(j, key) == Some(Str(text))
  }

  lemma WordIff(v: Option<Json>)
    ensures Word(v) <==> Identifier(v).Some?
    ensures Word(v) ==> Identifier(v).value == v.value.s
  {
    BlankIff();
  }

  lemma BlankIff()
    ensures forall c :: Blank(c) <==> IsSpace(c)
  {
  }

  // ---------- tiers ----------

  /** The letter that declares a tier. */
  function Letter(t: Tier): string {
    match t case A => "A" case B => "B" case C => "C" case D => "D"
  }

  predicate TierDeclared(j: Json, key: string) {
    Says(j, key, "A") || Says(j, key, "B") || Says(j, key, "C") || Says(j, key, "D")
  }

  /** A tier is read off its letter; any other value is refused. */
  lemma {:induction false} TiersAreLetters(j: Json, key: string)
    ensures forall t: Tier :: TierField(Field(j, key)) == Some(t) <==> Says(j, key, Letter(t))
    ensures TierField(Field(j, key)).Some? <==> TierDeclared(j, key)
  {
  }

  // ---------- one trigger ----------

  predicate NameCharacter(c: char) {
    || ('a' <= c && c <= 'z') || ('A' <= c && c <= 'Z') || ('0' <= c && c <= '9') || c == '-' || c == '_'
  }

  predicate TriggerNamed(j: Json) {
    && Word(Field(j, "name"))
    && var s := Field(j, "name").value.s;
       s[0] != '-' && s[0] != '_' && forall i | 0 <= i < |s| :: NameCharacter(s[i])
  }

  predicate IsText(j: Json, key: string) {
    Field(j, key) == None || Field(j, key).value.Str?
  }

  predicate IsFlag(j: Json, key: string) {
    Field(j, key) == None || Field(j, key).value.Bool?
  }

  predicate IsWhole(j: Json, key: string) {
    Field(j, key) == None || Field(j, key).value.Int?
  }

  predicate Raised(j: Json, key: string) {
    Field(j, key) == Some(Bool(true))
  }

  predicate TypesConform(j: Json) {
    && IsText(j, "condition") && IsWhole(j, "cooldown_seconds") && IsWhole(j, "approval_timeout_seconds")
    && IsFlag(j, "bypass_llm") && IsFlag(j, "requires_approval") && IsText(j, "safe_default_action")
  }

  /** Tier D escalates to rules only, and only Tier D bypasses the model. */
  predicate EscalationConforms(j: Json) {
    && (|| Field(j, "escalate_to") == None || Says(j, "escalate_to", "rule")
        || (!Says(j, "action_tier", "D") && (Says(j, "escalate_to", "local_slm") || Says(j, "escalate_to", "gateway"))))
    && (Raised(j, "bypass_llm") ==> Says(j, "action_tier", "D"))
  }

  /** Reasoning after the action is for Tier B only. */
  predicate PolicyConforms(j: Json) {
    Missing(Field(j, "reasoning_policy")) ||
      (Says(j, "reasoning_policy", "post_action") && Says(j, "action_tier", "B"))
  }

  predicate SafeDefaultConforms(j: Json) {
    Field(j, "safe_default_action").Some? && Field(j, "safe_default_action").value.Str? ==>
      && NoBlankEnds(Field(j, "safe_default_action").value.s)
      && (Says(j, "action_tier", "C") ==> Field(j, "safe_default_action").value.s != "")
  }

  predicate TriggerConforms(j: Json) {
    && j.Dict? && TriggerNamed(j) && TierDeclared(j, "action_tier") && TypesConform(j) && EscalationConforms(j)
    && PolicyConforms(j) && SafeDefaultConforms(j)
  }

  lemma NamedIff(j: Json)
    ensures TriggerNamed(j) <==> NameOk(j)
  {
    WordIff(Field(j, "name"));
    if Word(Field(j, "name")) {
      var s := Field(j, "name").value.s;
      assert forall c :: NameCharacter(c) <==> Alphanumeric(c) || c == '_' || c == '-';
    }
  }

  lemma EscalationIff(j: Json, tier: Tier)
    requires Says(j, "action_tier", Letter(tier))
    ensures EscalationConforms(j) <==>
              EscalationOk(j, tier) && (Field(j, "bypass_llm") == Some(Bool(true)) ==> tier == D)
  {
  }

  lemma PolicyIff(j: Json, tier: Tier)
    requires Says(j, "action_tier", Letter(tier))
    ensures PolicyConforms(j) <==> PolicyOk(j, tier)
  {
  }

  lemma SafeDefaultIff(j: Json, tier: Tier)
    requires Says(j, "action_tier", Letter(tier)) && IsText(j, "safe_default_action")
    ensures SafeDefaultConforms(j) <==> SafeDefaultOk(j, tier)
  {
    BlankIff();
  }

  lemma TypesIff(j: Json)
    ensures TypesConform(j) <==> TypesOk(j) && IsText(j, "safe_default_action")
  {
  }

  ghost predicate AuthorityConforms(j: Json) {
    IsText(j, "safe_default_action") && EscalationConforms(j) && PolicyConforms(j) && SafeDefaultConforms(j)
  }

  lemma AuthorityIff(j: Json, tier: Tier)
    requires Says(j, "action_tier", Letter(tier))
    ensures AuthorityConforms(j) <==> AuthorityOk(j, tier)
  {
    EscalationIff(j, tier);
    PolicyIff(j, tier);
    if IsText(j, "safe_default_action") {
      SafeDefaultIff(j, tier);
    }
    FlagIff(j, tier);
  }

  lemma FlagIff(j: Json, tier: Tier)
    ensures Flag(j, "bypass_llm") == Some(true) <==> Field(j, "bypass_llm") == Some(Bool(true))
    ensures SafeDefaultOk(j, tier) ==> IsText(j, "safe_default_action")
  {
  }

  lemma TriggerSplits(j: Json)
    ensures TriggerConforms(j) <==>
              j.Dict? && TriggerNamed(j) && TierDeclared(j, "action_tier") && TypesOk(j) && AuthorityConforms(j)
  {
    TypesIff(j);
  }

  /** A trigger is taken exactly when its document conforms. */
  lemma {:induction false} TriggerConformsIff(j: Json)
    ensures TriggerConforms(j) <==> TriggerOk(j)
  {
    TriggerSplits(j);
    NamedIff(j);
    TiersAreLetters(j, "action_tier");
    var tier := TierField(Field(j, "action_tier"));
    if tier.Some? {
      AuthorityIff(j, tier.value);
    }
  }

  /** What is read of a trigger. */
  lemma TriggerReads(j: Json)
    requires TriggerOk(j)
    ensures var t := TriggerOf(j);
            && Says(j, "name", t.name) && Says(j, "action_tier", Letter(t.tier))
            && (t.approval <==> Raised(j, "requires_approval"))
            && (t.postAction <==> Says(j, "reasoning_policy", "post_action"))
            && (if Field(j, "safe_default_action") == None then t.safeDefault == "log_to_dashboard"
                else Says(j, "safe_default_action", t.safeDefault))
  {
    TiersAreLetters(j, "action_tier");
  }

  // ---------- the lists of triggers and actions ----------

  predicate NamesDiffer(items: seq<Json>) {
    forall i, j | 0 <= i < j < |items| :: Field(items[i], "name") != Field(items[j], "name")
  }

  predicate TriggersConform(v: Option<Json>) {
    && v.Some? && v.value.List? && v.value.items != [] && NamesDiffer(v.value.items)
    && forall i | 0 <= i < |v.value.items| :: TriggerConforms(v.value.items[i])
  }

  lemma {:induction false} TriggersConformIff(v: Option<Json>)
    ensures TriggersConform(v) <==> TriggersOk(v)
  {
    if v.Some? && v.value.List? {
      var items := v.value.items;
      forall i | 0 <= i < |items|
        ensures TriggerConforms(items[i]) <==> TriggerOk(items[i])
      {
        TriggerConformsIff(items[i]);
      }
      if AllTriggersOk(items) {
        TriggerNamesDiffer(items);
      }
    }
  }

  lemma TriggerNamesDiffer(items: seq<Json>)
    requires AllTriggersOk(items)
    ensures NamesDiffer(items) <==> DistinctNames(AllTriggers(items))
  {
    forall i | 0 <= i < |items|
      ensures Field(items[i], "name") == Some(Str(AllTriggers(items)[i].name))
    {
      TriggerReads(items[i]);
    }
  }

  predicate ActionConforms(j: Json) {
    j.Dict? && Word(Field(j, "name")) && TierDeclared(j, "tier")
  }

  /** Some element declares the action with the tier. */
  ghost predicate DeclaredAs(items: seq<Json>, name: string, letter: string) {
    exists i :: 0 <= i < |items| && Says(items[i], "name", name) && Says(items[i], "tier", letter)
  }

  predicate AvailableConforms(items: seq<Json>) {
    NamesDiffer(items) && forall i | 0 <= i < |items| :: ActionConforms(items[i])
  }

  lemma ActionConformsIff(j: Json)
    ensures ActionConforms(j) <==> ActionOk(j)
    ensures ActionOk(j) ==>
              Says(j, "name", ActionName(j).value) && forall t :: ActionTier(j) == Some(t) <==>
                  Says(j, "tier", Letter(t))
  {
    WordIff(Field(j, "name"));
    TiersAreLetters(j, "tier");
  }

  lemma AvailableConformsIff(items: seq<Json>)
    ensures AvailableConforms(items) <==> AvailableOk(items)
  {
    forall i | 0 <= i < |items|
      ensures ActionConforms(items[i]) <==> ActionOk(items[i])
      ensures ActionOk(items[i]) ==> Says(items[i], "name", ActionName(items[i]).value)
    {
      ActionConformsIff(items[i]);
    }
  }

  /** The table of actions says exactly what the document declares. */
  lemma {:induction false} TableIsDocument(items: seq<Json>, name: string, t: Tier)
    requires AvailableOk(items)
    ensures var table := TableFor(Declared(items));
            name in table && table[name] == t <==> DeclaredAs(items, name, Letter(t))
  {
    var table, declared := TableFor(Declared(items)), Declared(items);
    if name in table && table[name] == t {
      var i :| 0 <= i < |declared| && declared[i].0 == name;
      ActionConformsIff(items[i]);
      assert declared[i].1 == t;
    }
    if DeclaredAs(items, name, Letter(t)) {
      var i :| 0 <= i < |items| && Says(items[i], "name", name) && Says(items[i], "tier", Letter(t));
      ActionConformsIff(items[i]);
      assert declared[i] == (name, t);
    }
  }

  // ---------- a trigger's defaults ----------

  /** A declared action; one of Tier D only for a trigger of Tier D. */
  ghost predicate ReferenceConforms(v: Json, trigger: Json, available: seq<Json>) {
    && Word(Some(v))
    && (|| DeclaredAs(available, v.s, "A") || DeclaredAs(available, v.s, "B") || DeclaredAs(available, v.s, "C")
        || (DeclaredAs(available, v.s, "D") && Says(trigger, "action_tier", "D")))
  }

  ghost predicate SomeDefault(names: seq<Json>, available: seq<Json>, letter: string) {
    exists i :: 0 <= i < |names| && names[i].Str? && DeclaredAs(available, names[i].s, letter)
  }

  ghost predicate ReferencesConform(names: seq<Json>, trigger: Json, available: seq<Json>) {
    && (forall i | 0 <= i < |names| :: ReferenceConforms(names[i], trigger, available))
    && (forall i, j | 0 <= i < j < |names| :: names[i] != names[j])
  }

  /** The fallback of a Tier C trigger only logs, or is a declared action of Tier A. */
  ghost predicate FallbackConforms(trigger: Json, available: seq<Json>) {
    Says(trigger, "action_tier", "C") ==> match Field(trigger, "safe_default_action")
      case Some(Str(s)) => s == "log_to_dashboard" || DeclaredAs(available, s, "A")
      case _ => true
  }

  /** A Tier A or B trigger with a Tier B default is approved first, or reports afterwards by a Tier A default. */
  ghost predicate GateConforms(trigger: Json, names: seq<Json>, available: seq<Json>) {
    (Says(trigger, "action_tier", "A") || Says(trigger, "action_tier", "B")) && SomeDefault(names, available, "B") ==>
      && (Raised(trigger, "requires_approval") || Says(trigger, "reasoning_policy", "post_action"))
      && (Says(trigger, "reasoning_policy", "post_action") ==> SomeDefault(names, available, "A"))
  }

  ghost predicate DefaultsConform(trigger: Json, v: Json, available: seq<Json>) {
    && v.List? && v.items != [] && ReferencesConform(v.items, trigger, available)
    && FallbackConforms(trigger, available) && GateConforms(trigger, v.items, available)
  }

  lemma NotTierD(available: seq<Json>, name: string)
    requires AvailableOk(available)
    ensures var table := TableFor(Declared(available));
            name in table && table[name] != D <==>
              DeclaredAs(available, name, "A") || DeclaredAs(available, name, "B") || DeclaredAs(available, name, "C")
  {
    TableIsDocument(available, name, A);
    TableIsDocument(available, name, B);
    TableIsDocument(available, name, C);
  }

  lemma ReferenceConformsIff(v: Json, trigger: Json, available: seq<Json>, tier: Tier)
    requires AvailableOk(available) && Says(trigger, "action_tier", Letter(tier))
    ensures ReferenceConforms(v, trigger, available) <==> ReferenceOk(v, TableFor(Declared(available)), tier)
  {
    WordIff(Some(v));
    if v.Str? {
      NotTierD(available, v.s);
      TableIsDocument(available, v.s, D);
      assert Says(trigger, "action_tier", "D") <==> tier == D;
    }
  }

  lemma ReferencesConformIff(names: seq<Json>, trigger: Json, available: seq<Json>, tier: Tier)
    requires AvailableOk(available) && Says(trigger, "action_tier", Letter(tier))
    ensures ReferencesConform(names, trigger, available) <==>
              ReferencesOk(names, TableFor(Declared(available)), tier)
  {
    forall i | 0 <= i < |names|
      ensures ReferenceConforms(names[i], trigger, available) <==>
                ReferenceOk(names[i], TableFor(Declared(available)), tier)
      ensures ReferenceConforms(names[i], trigger, available) ==> names[i] == Str(Texts(names)[i])
    {
      ReferenceConformsIff(names[i], trigger, available, tier);
    }
  }

  lemma SomeDefaultIff(names: seq<Json>, available: seq<Json>, t: Tier)
    requires AvailableOk(available) && forall i | 0 <= i < |names| :: names[i].Str?
    ensures SomeDefault(names, available, Letter(t)) <==> DefaultsTo(Texts(names), TableFor(Declared(available)), t)
  {
    forall i | 0 <= i < |names|
      ensures DeclaredAs(available, names[i].s, Letter(t)) <==>
                names[i].s in TableFor(Declared(available)) && TableFor(Declared(available))[names[i].s] == t
    {
      TableIsDocument(available, names[i].s, t);
    }
    if DefaultsTo(Texts(names), TableFor(Declared(available)), t) {
      var n :| n in Texts(names) && n in TableFor(Declared(available)) && TableFor(Declared(available))[n] == t;
      var i :| 0 <= i < |names| && Texts(names)[i] == n;
      assert names[i].s == n;
    }
    if i :| 0 <= i < |names| && DeclaredAs(available, names[i].s, Letter(t)) {
      assert Texts(names)[i] == names[i].s;
    }
  }

  /** The part of a trigger that its fallback depends on. */
  lemma FallbackReads(trigger: Json)
    requires TriggerOk(trigger)
    ensures TriggerOf(trigger).tier == C <==> Says(trigger, "action_tier", "C")
    ensures Field(trigger, "safe_default_action") == None ==> TriggerOf(trigger).safeDefault == LOG
    ensures Field(trigger, "safe_default_action").Some? ==>
              Field(trigger, "safe_default_action") == Some(Str(TriggerOf(trigger).safeDefault))
  {
    TriggerReads(trigger);
  }

  lemma FallbackConformsIff(trigger: Json, available: seq<Json>)
    requires AvailableOk(available) && TriggerOk(trigger)
    ensures FallbackConforms(trigger, available) <==>
              SafeDefaultDeclared(TriggerOf(trigger), TableFor(Declared(available)))
  {
    FallbackReads(trigger);
    TableIsDocument(available, TriggerOf(trigger).safeDefault, A);
  }

  lemma GateConformsIff(trigger: Json, names: seq<Json>, available: seq<Json>)
    requires AvailableOk(available) && TriggerOk(trigger) && forall i | 0 <= i < |names| :: names[i].Str?
    ensures GateConforms(trigger, names, available) <==>
              PhysicalGated(TriggerOf(trigger), Texts(names), TableFor(Declared(available)))
  {
    TriggerReads(trigger);
    SomeDefaultIff(names, available, A);
    SomeDefaultIff(names, available, B);
  }

  lemma TriggerReferencesIff(trigger: Json, names: seq<Json>, available: seq<Json>)
    requires AvailableOk(available) && TriggerOk(trigger)
    ensures ReferencesConform(names, trigger, available) <==>
              ReferencesOk(names, TableFor(Declared(available)), TriggerOf(trigger).tier)
    ensures ReferencesConform(names, trigger, available) ==> forall i | 0 <= i < |names| :: names[i].Str?
  {
    TriggerReads(trigger);
    ReferencesConformIff(names, trigger, available, TriggerOf(trigger).tier);
    if ReferencesConform(names, trigger, available) {
      assert forall i | 0 <= i < |names| :: ReferenceConforms(names[i], trigger, available);
    }
  }

  lemma DefaultsConformIff(trigger: Json, v: Json, available: seq<Json>)
    requires AvailableOk(available) && TriggerOk(trigger)
    ensures DefaultsConform(trigger, v, available) <==>
              DefaultsOk(TriggerOf(trigger), v, TableFor(Declared(available)))
  {
    if v.List? {
      TriggerReferencesIff(trigger, v.items, available);
      FallbackConformsIff(trigger, available);
      if ReferencesConform(v.items, trigger, available) {
        GateConformsIff(trigger, v.items, available);
      }
    }
  }

  // ---------- the whole section ----------

  /** The keys are exactly the names of the triggers. */
  ghost predicate KeysAreTriggers(defaults: Json, triggers: seq<Json>)
    requires defaults.Dict?
  {
    forall k :: k in KeysOf(defaults.entries) <==> exists i :: 0 <= i < |triggers| && Says(triggers[i], "name", k)
  }

  ghost predicate DefaultsGiven(defaults: Json, trigger: Json, available: seq<Json>) {
    && Field(trigger, "name").Some? && Field(trigger, "name").value.Str?
    && var v := Field(defaults, Field(trigger, "name").value.s);
       v.Some? && DefaultsConform(trigger, v.value, available)
  }

  ghost predicate CoverConforms(defaults: Json, triggers: seq<Json>, available: seq<Json>)
    requires defaults.Dict?
  {
    && KeysAreTriggers(defaults, triggers)
    && forall i | 0 <= i < |triggers| :: DefaultsGiven(defaults, triggers[i], available)
  }

  lemma KeysAreTriggersIff(defaults: Json, triggers: seq<Json>)
    requires defaults.Dict? && AllTriggersOk(triggers)
    ensures KeysAreTriggers(defaults, triggers) <==> KeysOf(defaults.entries) == NamesOf(AllTriggers(triggers))
  {
    forall k
      ensures k in NamesOf(AllTriggers(triggers)) <==> exists i :: 0 <= i < |triggers| && Says(triggers[i], "name", k)
    {
      forall i | 0 <= i < |triggers|
        ensures Says(triggers[i], "name", k) <==> AllTriggers(triggers)[i].name == k
      {
        TriggerReads(triggers[i]);
      }
    }
  }

  lemma DefaultsGivenIff(defaults: Json, trigger: Json, available: seq<Json>)
    requires defaults.Dict? && TriggerOk(trigger) && AvailableOk(available)
    ensures DefaultsGiven(defaults, trigger, available) <==>
              TriggerCovered(defaults, TriggerOf(trigger), TableFor(Declared(available)))
  {
    TriggerReads(trigger);
    var v := Field(defaults, TriggerOf(trigger).name);
    if v.Some? {
      DefaultsConformIff(trigger, v.value, available);
    }
  }

  lemma CoverConformsIff(defaults: Json, triggers: seq<Json>, available: seq<Json>)
    requires defaults.Dict? && AllTriggersOk(triggers) && AvailableOk(available)
    ensures CoverConforms(defaults, triggers, available) <==>
              DefaultsCover(defaults, AllTriggers(triggers), TableFor(Declared(available)))
  {
    KeysAreTriggersIff(defaults, triggers);
    forall i | 0 <= i < |triggers|
      ensures DefaultsGiven(defaults, triggers[i], available) <==>
                TriggerCovered(defaults, AllTriggers(triggers)[i], TableFor(Declared(available)))
    {
      DefaultsGivenIff(defaults, triggers[i], available);
    }
  }

  ghost predicate ActionsConform(v: Option<Json>, triggers: seq<Json>) {
    && v.Some? && v.value.Dict?
    && var available := Field(v.value, "available"); var defaults := Field(v.value, "defaults");
       && available.Some? && available.value.List? && available.value.items != []
       && AvailableConforms(available.value.items)
       && defaults.Some? && defaults.value.Dict? && CoverConforms(defaults.value, triggers, available.value.items)
  }

  lemma ActionsConformIff(v: Option<Json>, triggers: seq<Json>)
    requires AllTriggersOk(triggers)
    ensures ActionsConform(v, triggers) <==> ActionsOk(v, AllTriggers(triggers))
  {
    if v.Some? && v.value.Dict? {
      var available, defaults := Field(v.value, "available"), Field(v.value, "defaults");
      if available.Some? && available.value.List? && defaults.Some? && defaults.value.Dict? {
        AvailableConformsIff(available.value.items);
        if AvailableOk(available.value.items) {
          CoverConformsIff(defaults.value, triggers, available.value.items);
        }
      }
    }
  }

  // ---------- sensors, prompts and names ----------

  predicate SensorConforms(j: Json) {
    j.Dict? && Word(Field(j, "type")) && (Missing(Field(j, "protocol")) || Word(Field(j, "protocol")))
  }

  predicate SensorsConform(v: Option<Json>) {
    v.None? ||
      (&& v.value.List? && (forall i | 0 <= i < |v.value.items| :: SensorConforms(v.value.items[i]))
       && forall i, j | 0 <= i < j < |v.value.items| ::
             Field(v.value.items[i], "type") != Field(v.value.items[j], "type"))
  }

  lemma SensorConformsIff(j: Json)
    ensures SensorConforms(j) <==> SensorOk(j)
    ensures SensorOk(j) ==> SensorType(j).Some? && Field(j, "type") == Some(Str(SensorType(j).value))
  {
    WordIff(Field(j, "type"));
    WordIff(Field(j, "protocol"));
  }

  lemma SensorsConformIff(v: Option<Json>)
    ensures SensorsConform(v) <==> SensorsOk(v)
  {
    if v.Some? && v.value.List? {
      var items := v.value.items;
      forall i | 0 <= i < |items|
        ensures SensorConforms(items[i]) <==> SensorOk(items[i])
        ensures SensorOk(items[i]) ==>
                  TypesOf(items)[i].Some? && Field(items[i], "type") == Some(Str(TypesOf(items)[i].value))
      {
        SensorConformsIff(items[i]);
      }
    }
  }

  /** A placeholder starts here: "{history.", at least one character that is no brace, and a closing brace. */
  ghost predicate PlaceholderAt(s: string, i: nat) {
    exists j :: PlaceholderFromTo(s, i, j)
  }

  predicate PlaceholderFromTo(s: string, i: nat, j: int) {
    && i + 9 < j < |s| && s[i..i + 9] == "{history." && s[j] == '}'
    && forall k | i + 9 <= k < j :: s[k] != '{' && s[k] != '}'
  }

  ghost function PlaceholdersFrom(s: string, n: nat): set<nat> {
    set i: nat | n <= i < |s| && PlaceholderAt(s, i)
  }

  lemma PlaceholderIff(s: string, i: nat)
    requires i <= |s|
    ensures PlaceholderAt(s, i) <==> PlaceholderLength(s[i..]) > 0
  {
    var t := s[i..];
    assert |OPENING| == 9;
    if j :| PlaceholderFromTo(s, i, j) {
      assert t[..9] == s[i..i + 9];
      BracesEnd(t[9..], j - i - 9);
    }
    if PlaceholderLength(t) > 0 {
      var n := BraceFree(t[9..]);
      assert t[..9] == s[i..i + 9];
      assert forall k | 0 <= k < n :: t[9..][k] == s[i + 9 + k];
      assert PlaceholderFromTo(s, i, i + 9 + n);
    }
  }

  lemma BracesEnd(t: string, n: nat)
    requires n < |t| && Brace(t[n]) && forall k | 0 <= k < n :: !Brace(t[k])
    ensures BraceFree(t) == n
  {
  }

  lemma OneMorePlace(s: string, n: nat)
    requires n < |s|
    ensures |PlaceholdersFrom(s, n)| == |PlaceholdersFrom(s, n + 1)| + if PlaceholderAt(s, n) then 1 else 0
  {
    var later := PlaceholdersFrom(s, n + 1);
    assert n !in later;
    if PlaceholderAt(s, n) {
      assert PlaceholdersFrom(s, n) == later + {n};
    } else {
      assert PlaceholdersFrom(s, n) == later;
    }
  }

  lemma {:induction false} StartsCountPlaceholders(s: string, n: nat)
    requires n <= |s|
    ensures Starts(s[n..]) == |PlaceholdersFrom(s, n)|
    decreases |s| - n
  {
    if n == |s| {
      assert PlaceholdersFrom(s, n) == {};
    } else {
      StartsCountPlaceholders(s, n + 1);
      PlaceholderIff(s, n);
      OneMorePlace(s, n);
      assert s[n..][1..] == s[n + 1..];
    }
  }

  ghost predicate PromptConforms(j: Json) {
    j.Str? && |PlaceholdersFrom(j.s, 0)| <= 16
  }

  ghost predicate PromptsConform(v: Option<Json>) {
    v.None? || (v.value.Dict? && forall i | 0 <= i < |v.value.entries| :: PromptConforms(v.value.entries[i].1))
  }

  lemma PromptsConformIff(v: Option<Json>)
    ensures PromptsConform(v) <==> PromptsOk(v)
  {
    if v.Some? && v.value.Dict? {
      forall i | 0 <= i < |v.value.entries|
        ensures PromptConforms(v.value.entries[i].1) <==> PromptOk(v.value.entries[i].1)
      {
        var j := v.value.entries[i].1;
        if j.Str? {
          StartsCountPlaceholders(j.s, 0);
          assert j.s[0..] == j.s;
        }
      }
    }
  }

  predicate HeaderConforms(root: Json) {
    && Word(Field(root, "name")) && Word(Field(root, "version")) && Word(Field(root, "author"))
    && (Missing(Field(root, "signature")) || Word(Field(root, "signature")))
  }

  lemma HeaderConformsIff(root: Json)
    ensures HeaderConforms(root) <==> HeaderOk(root)
  {
    WordIff(Field(root, "name"));
    WordIff(Field(root, "version"));
    WordIff(Field(root, "author"));
    WordIff(Field(root, "signature"));
  }

  // ---------- the whole package ----------

  /** What a package document must say. */
  ghost predicate Conforms(root: Json) {
    && root.Dict? && HeaderConforms(root) && SensorsConform(Field(root, "sensors_required"))
    && PromptsConform(Field(root, "prompts")) && (Field(root, "config") == None || Field(root, "config").value.Dict?)
    && TriggersConform(Field(root, "triggers"))
    && ActionsConform(Field(root, "actions"), Field(root, "triggers").value.items)
  }

  lemma RestConformsIff(root: Json)
    ensures RestOk(root) <==>
              && HeaderConforms(root) && SensorsConform(Field(root, "sensors_required"))
              && PromptsConform(Field(root, "prompts"))
              && (Field(root, "config") == None || Field(root, "config").value.Dict?)
  {
    HeaderConformsIff(root);
    SensorsConformIff(Field(root, "sensors_required"));
    PromptsConformIff(Field(root, "prompts"));
  }

  /** The validation accepts exactly the documents that conform. */
  lemma {:induction false} PackagesConformIff(root: Json)
    ensures WellFormed(root) <==> Conforms(root)
  {
    RestConformsIff(root);
    TriggersConformIff(Field(root, "triggers"));
    if TriggersOk(Field(root, "triggers")) {
      ActionsConformIff(Field(root, "actions"), Field(root, "triggers").value.items);
    }
  }

  // ---------- the decision ----------

  function ItemsOf(v: Option<Json>): seq<Json> {
    if v.Some? && v.value.List? then v.value.items else []
  }

  function AvailableIn(actions: Option<Json>): seq<Json> {
    if actions.Some? then ItemsOf(Field(actions.value, "available")) else []
  }

  ghost predicate SomeSays(items: seq<Json>, key: string, text: string) {
    exists i :: 0 <= i < |items| && Says(items[i], key, text)
  }

  /** Tier C or D stands somewhere, in a trigger or in an available action. */
  ghost predicate SaysTierCd(triggers: seq<Json>, available: seq<Json>) {
    || SomeSays(triggers, "action_tier", "C") || SomeSays(triggers, "action_tier", "D")
    || SomeSays(available, "tier", "C") || SomeSays(available, "tier", "D")
  }

  ghost predicate DocumentSaysCd(root: Json) {
    SaysTierCd(ItemsOf(Field(root, "triggers")), AvailableIn(Field(root, "actions")))
  }

  predicate SomeTrigger(triggers: seq<Trigger>, tier: Tier) {
    exists t :: t in triggers && t.tier == tier
  }

  predicate SomeAction(table: ActionTable, tier: Tier) {
    exists n :: n in table && table[n] == tier
  }

  lemma DeclaresCdIff(triggers: seq<Trigger>, table: ActionTable)
    ensures DeclaresCd(triggers, table) <==>
              SomeTrigger(triggers, C) || SomeTrigger(triggers, D) || SomeAction(table, C) || SomeAction(table, D)
  {
  }

  lemma TriggerTiers(items: seq<Json>, t: Tier)
    requires AllTriggersOk(items)
    ensures SomeTrigger(AllTriggers(items), t) <==> SomeSays(items, "action_tier", Letter(t))
  {
    forall i | 0 <= i < |items|
      ensures AllTriggers(items)[i].tier == t <==> Says(items[i], "action_tier", Letter(t))
    {
      TiersAreLetters(items[i], "action_tier");
    }
    if i :| 0 <= i < |items| && Says(items[i], "action_tier", Letter(t)) {
      assert AllTriggers(items)[i] in AllTriggers(items);
    }
  }

  lemma ActionTiers(items: seq<Json>, t: Tier)
    requires AvailableOk(items)
    ensures SomeAction(TableFor(Declared(items)), t) <==> SomeSays(items, "tier", Letter(t))
  {
    var table := TableFor(Declared(items));
    if n :| n in table && table[n] == t {
      TableIsDocument(items, n, t);
    }
    if i :| 0 <= i < |items| && Says(items[i], "tier", Letter(t)) {
      ActionConformsIff(items[i]);
      TableIsDocument(items, ActionName(items[i]).value, t);
    }
  }

  lemma DeclaredTiers(triggers: seq<Json>, available: seq<Json>)
    requires AllTriggersOk(triggers) && AvailableOk(available)
    ensures DeclaresCd(AllTriggers(triggers), TableFor(Declared(available))) <==> SaysTierCd(triggers, available)
  {
    DeclaresCdIff(AllTriggers(triggers), TableFor(Declared(available)));
    TriggerTiers(triggers, C);
    TriggerTiers(triggers, D);
    ActionTiers(available, C);
    ActionTiers(available, D);
  }

  lemma SectionsDeclare(v: Option<Json>, actions: Option<Json>)
    requires TriggersOk(v) && ActionsOk(actions, TriggersOf(v))
    ensures DeclaresCd(TriggersOf(v), TableIn(actions)) <==> SaysTierCd(ItemsOf(v), AvailableIn(actions))
  {
    DeclaredTiers(ItemsOf(v), AvailableIn(actions));
  }

  /** Of an accepted package, the tiers read are the texts that stand in the document. */
  lemma {:induction false} DeclaresIffSays(root: Json)
    requires WellFormed(root)
    ensures DeclaresCd(TriggersOf(Field(root, "triggers")), TableIn(Field(root, "actions"))) <==> DocumentSaysCd(root)
  {
    SectionsDeclare(Field(root, "triggers"), Field(root, "actions"));
  }

  // ---------- what a listed package does ----------

  /** The defaults of one trigger, in the document: each is declared with the text "A" or "B"; and with a "B" among
      them, the trigger needs approval, or it says "B" and "post_action" itself and there is an "A" among them too. */
  ghost predicate DefaultsActSafely(trigger: Json, names: seq<Json>, available: seq<Json>) {
    && names != []
    && (forall i | 0 <= i < |names| ::
          names[i].Str? && (DeclaredAs(available, names[i].s, "A") || DeclaredAs(available, names[i].s, "B")))
    && (SomeDefault(names, available, "B") ==>
          || Raised(trigger, "requires_approval")
          || (&& Says(trigger, "action_tier", "B") && Says(trigger, "reasoning_policy", "post_action")
              && SomeDefault(names, available, "A")))
    && (SomeDefault(names, available, "B") && Says(trigger, "reasoning_policy", "post_action") ==>
          SomeDefault(names, available, "A"))
  }

  lemma DeclaredIsSaid(available: seq<Json>, name: string, letter: string)
    requires DeclaredAs(available, name, letter)
    ensures SomeSays(available, "tier", letter)
  {
  }

  lemma ReferencesAreSafe(names: seq<Json>, trigger: Json, available: seq<Json>, i: nat)
    requires ReferencesConform(names, trigger, available) && i < |names|
    requires !SomeSays(available, "tier", "C") && !SomeSays(available, "tier", "D")
    ensures names[i].Str? && (DeclaredAs(available, names[i].s, "A") || DeclaredAs(available, names[i].s, "B"))
  {
    assert ReferenceConforms(names[i], trigger, available);
    if DeclaredAs(available, names[i].s, "C") {
      DeclaredIsSaid(available, names[i].s, "C");
    }
    if DeclaredAs(available, names[i].s, "D") {
      DeclaredIsSaid(available, names[i].s, "D");
    }
  }

  lemma ConformingActsSafely(trigger: Json, v: Json, available: seq<Json>)
    requires DefaultsConform(trigger, v, available) && PolicyConforms(trigger)
    requires Says(trigger, "action_tier", "A") || Says(trigger, "action_tier", "B")
    requires !SomeSays(available, "tier", "C") && !SomeSays(available, "tier", "D")
    ensures DefaultsActSafely(trigger, v.items, available)
  {
    forall i | 0 <= i < |v.items|
      ensures v.items[i].Str? && (DeclaredAs(available, v.items[i].s, "A") || DeclaredAs(available, v.items[i].s, "B"))
    {
      ReferencesAreSafe(v.items, trigger, available, i);
    }
  }

  /** The defaults that the document gives for a trigger. */
  function DefaultsFor(actions: Option<Json>, trigger: Json): seq<Json> {
    var name := Field(trigger, "name");
    var defaults := if actions.Some? then Field(actions.value, "defaults") else None;
    if defaults.Some? && name.Some? && name.value.Str? then ItemsOf(Field(defaults.value, name.value.s)) else []
  }

  lemma GivenActsSafely(defaults: Json, trigger: Json, available: seq<Json>)
    requires TriggerConforms(trigger) && !Says(trigger, "action_tier", "C") && !Says(trigger, "action_tier", "D")
    requires !SomeSays(available, "tier", "C") && !SomeSays(available, "tier", "D")
    requires DefaultsGiven(defaults, trigger, available)
    ensures DefaultsActSafely(trigger, ItemsOf(Field(defaults, Field(trigger, "name").value.s)), available)
  {
    ConformingActsSafely(trigger, Field(defaults, Field(trigger, "name").value.s).value, available);
  }

  lemma TriggerActsSafely(v: Option<Json>, actions: Option<Json>, i: nat)
    requires TriggersConform(v) && ActionsConform(actions, v.value.items) && i < |v.value.items|
    requires !SaysTierCd(v.value.items, AvailableIn(actions))
    ensures DefaultsActSafely(v.value.items[i], DefaultsFor(actions, v.value.items[i]), AvailableIn(actions))
  {
    var trigger, defaults := v.value.items[i], Field(actions.value, "defaults").value;
    assert DefaultsGiven(defaults, trigger, AvailableIn(actions));
    GivenActsSafely(defaults, trigger, AvailableIn(actions));
  }

  ghost predicate AllActSafely(triggers: seq<Json>, actions: Option<Json>) {
    forall i | 0 <= i < |triggers| ::
      DefaultsActSafely(triggers[i], DefaultsFor(actions, triggers[i]), AvailableIn(actions))
  }

  lemma AllTriggersActSafely(v: Option<Json>, actions: Option<Json>)
    requires TriggersConform(v) && ActionsConform(actions, v.value.items)
    requires !SaysTierCd(v.value.items, AvailableIn(actions))
    ensures AllActSafely(v.value.items, actions)
  {
    forall i | 0 <= i < |v.value.items|
      ensures DefaultsActSafely(v.value.items[i], DefaultsFor(actions, v.value.items[i]), AvailableIn(actions))
    {
      TriggerActsSafely(v, actions, i);
    }
  }

  /** Whatever is listed without a review acts safely, by the letters of its document: every trigger has defaults,
      all of them declared with "A" or "B", and a "B" among them is approved first, or reported afterwards through
      an "A". */
  lemma {:induction false} ListedDocumentsActSafely(root: Json)
    requires Conforms(root) && !DocumentSaysCd(root)
    ensures AllActSafely(ItemsOf(Field(root, "triggers")), Field(root, "actions"))
  {
    AllTriggersActSafely(Field(root, "triggers"), Field(root, "actions"));
  }
}
