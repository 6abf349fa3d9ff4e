/** The RBAC rule editor: radio modes over checkbox sets, and the round trip from a rule and back. */
module RuleEditorModel {
  import opened Picking

  datatype VerbMode = ReadOnly | AllVerbs | CustomVerbs
  datatype ResourceMode = Safe | AllResources | NonResource | CustomResources

  const READ_VERBS := {"get", "list", "proxy", "redirect", "watch"}
  const ALL_VERBS := [
    "get", "list", "proxy", "redirect", "watch", "create", "delete", "deletecollection", "patch", "post", "put",
    "update"]
  const STAR := "*"

  /** What the editor knows about the cluster: the loaded resources and the administrative ones. */
  datatype Cluster = Cluster(resources: seq<string>, admin: seq<string>)

  datatype Editor = Editor(verbMode: VerbMode, verbs: set<string>, resourceMode: ResourceMode, resources: set<string>)

  const FRESH := Editor(ReadOnly, {}, Safe, {})

  predicate VerbSelected(e: Editor, v: string) {
    match e.verbMode
    case CustomVerbs => v in e.verbs
    case ReadOnly => v in READ_VERBS
    case AllVerbs => true
  }

  predicate ResourceSelected(c: Cluster, e: Editor, r: string) {
    match e.resourceMode
    case CustomResources => r in e.resources
    case Safe => r !in c.admin
    case NonResource => false
    case AllResources => true
  }

  function WithOrWithout(s: set<string>, name: string, on: bool): set<string> {
    if on then s + {name} else s - {name}
  }

  function SelectedVerbs(e: Editor): set<string> {
    set v | v in ALL_VERBS && VerbSelected(e, v)
  }

  function SelectedResources(c: Cluster, e: Editor): set<string> {
    set r | r in c.resources && ResourceSelected(c, e, r)
  }

  function ToggleVerb(e: Editor, name: string, on: bool): Editor {
    var start := if e.verbMode == CustomVerbs then e.verbs else SelectedVerbs(e);
    e.(verbs := WithOrWithout(start, name, on), verbMode := CustomVerbs)
  }

  function ToggleResource(c: Cluster, e: Editor, name: string, on: bool): Editor {
    var start := if e.resourceMode == CustomResources then e.resources else SelectedResources(c, e);
    e.(resources := WithOrWithout(start, name, on), resourceMode := CustomResources)
  }

  datatype Action =
    | SetVerbMode(v: VerbMode)
    | SetResourceMode(r: ResourceMode)
    | ClickVerb(name: string, on: bool)
    | ClickResource(name: string, on: bool)

  function Act(c: Cluster, e: Editor, a: Action): Editor {
    match a
    case SetVerbMode(v) => e.(verbMode := v)
    case SetResourceMode(r) => e.(resourceMode := r)
    case ClickVerb(name, on) => ToggleVerb(e, name, on)
    case ClickResource(name, on) => ToggleResource(c, e, name, on)
  }

  function ActAll(c: Cluster, e: Editor, actions: seq<Action>): Editor
    decreases |actions|
  {
    if actions == [] then e else ActAll(c, Act(c, e, actions[0]), actions[1..])
  }

  /** A toggle changes the selection of exactly the named known verb, whatever mode it starts from. */
  lemma ToggleVerbIsLocal(e: Editor, name: string, on: bool, v: string)
    requires v in ALL_VERBS
    ensures VerbSelected(ToggleVerb(e, name, on), v) <==> if v == name then on else VerbSelected(e, v)
  {
  }

  lemma ToggleResourceIsLocal(c: Cluster, e: Editor, name: string, on: bool, r: string)
    requires r in c.resources
    ensures ResourceSelected(c, ToggleResource(c, e, name, on), r) <==>
            if r == name then on else ResourceSelected(c, e, r)
  {
  }

  predicate LeavesVerb(a: Action, v: string) {
    !a.SetVerbMode? && !(a.ClickVerb? && a.name == v)
  }

  predicate LeavesResource(a: Action, r: string) {
    !a.SetResourceMode? && !(a.ClickResource? && a.name == r)
  }

  /** Over any run without a verb mode switch and without a click on it, a known verb keeps its selection. */
  lemma {:induction false} UntouchedVerb(c: Cluster, e: Editor, actions: seq<Action>, v: string)
    requires v in ALL_VERBS && forall a :: a in actions ==> LeavesVerb(a, v)
    ensures VerbSelected(ActAll(c, e, actions), v) <==> VerbSelected(e, v)
    decreases |actions|
  {
    if actions != [] {
      assert LeavesVerb(actions[0], v);
      UntouchedVerb(c, Act(c, e, actions[0]), actions[1..], v);
    }
  }

  lemma {:induction false} UntouchedResource(c: Cluster, e: Editor, actions: seq<Action>, r: string)
    requires r in c.resources && forall a :: a in actions ==> LeavesResource(a, r)
    ensures ResourceSelected(c, ActAll(c, e, actions), r) <==> ResourceSelected(c, e, r)
    decreases |actions|
  {
    if actions != [] {
      assert LeavesResource(actions[0], r);
      UntouchedResource(c, Act(c, e, actions[0]), actions[1..], r);
    }
  }

  lemma {:induction false} ActAllConcat(c: Cluster, e: Editor, a: seq<Action>, b: seq<Action>)
    ensures ActAll(c, e, a + b) == ActAll(c, ActAll(c, e, a), b)
    decreases |a|
  {
    if a == [] {
      assert a + b == b;
    } else {
      assert (a + b)[1..] == a[1..] + b;
      ActAllConcat(c, Act(c, e, a[0]), a[1..], b);
    }
  }

  /** After any history, the last click on a known verb decides its selection until the mode changes. */
  lemma LastVerbClickWins(c: Cluster, e: Editor, past: seq<Action>, v: string, on: bool, later: seq<Action>)
    requires v in ALL_VERBS && forall a :: a in later ==> LeavesVerb(a, v)
    ensures VerbSelected(ActAll(c, e, past + [ClickVerb(v, on)] + later), v) <==> on
  {
    ActAllConcat(c, e, past + [ClickVerb(v, on)], later);
    ActAllConcat(c, e, past, [ClickVerb(v, on)]);
    var before := ActAll(c, e, past);
    assert ActAll(c, before, [ClickVerb(v, on)]) == ToggleVerb(before, v, on);
    UntouchedVerb(c, ToggleVerb(before, v, on), later, v);
  }

  lemma LastResourceClickWins(c: Cluster, e: Editor, past: seq<Action>, r: string, on: bool, later: seq<Action>)
    requires r in c.resources && forall a :: a in later ==> LeavesResource(a, r)
    ensures ResourceSelected(c, ActAll(c, e, past + [ClickResource(r, on)] + later), r) <==> on
  {
    ActAllConcat(c, e, past + [ClickResource(r, on)], later);
    ActAllConcat(c, e, past, [ClickResource(r, on)]);
    var before := ActAll(c, e, past);
    assert ActAll(c, before, [ClickResource(r, on)]) == ToggleResource(c, before, r, on);
    UntouchedResource(c, ToggleResource(c, before, r, on), later, r);
  }

  predicate LeavesVerbs(a: Action) {
    a.SetResourceMode? || a.ClickResource?
  }

  lemma {:induction false} UntouchedHalf(c: Cluster, e: Editor, actions: seq<Action>)
    ensures (forall a :: a in actions ==> LeavesVerbs(a)) ==>
              ActAll(c, e, actions).verbMode == e.verbMode && ActAll(c, e, actions).verbs == e.verbs
    ensures (forall a :: a in actions ==> !LeavesVerbs(a)) ==>
              ActAll(c, e, actions).resourceMode == e.resourceMode && ActAll(c, e, actions).resources == e.resources
    decreases |actions|
  {
    if actions != [] {
      assert actions[0] in actions;
      UntouchedHalf(c, Act(c, e, actions[0]), actions[1..]);
    }
  }

  /** After any history, the mode chosen last is the mode, and choosing it keeps every tick. */
  lemma LastModeWins(c: Cluster, e: Editor, past: seq<Action>, v: VerbMode, r: ResourceMode, later: seq<Action>)
    ensures var x := ActAll(c, e, past + [SetVerbMode(v)] + later);
      (forall a :: a in later ==> LeavesVerbs(a)) ==> x.verbMode == v && x.verbs == ActAll(c, e, past).verbs
    ensures var x := ActAll(c, e, past + [SetResourceMode(r)] + later);
      (forall a :: a in later ==> !LeavesVerbs(a)) ==>
        x.resourceMode == r && x.resources == ActAll(c, e, past).resources
  {
    var before := ActAll(c, e, past);
    ActAllConcat(c, e, past + [SetVerbMode(v)], later);
    ActAllConcat(c, e, past, [SetVerbMode(v)]);
    assert ActAll(c, before, [SetVerbMode(v)]) == before.(verbMode := v);
    UntouchedHalf(c, before.(verbMode := v), later);
    ActAllConcat(c, e, past + [SetResourceMode(r)], later);
    ActAllConcat(c, e, past, [SetResourceMode(r)]);
    assert ActAll(c, before, [SetResourceMode(r)]) == before.(resourceMode := r);
    UntouchedHalf(c, before.(resourceMode := r), later);
  }

  // ---- loading and saving ----

  datatype Rule = Rule(verbs: seq<string>, resources: seq<string>)

  /** getResource: '*' selects everything; every other name is collected even after a '*'. */
  function Load(rule: Rule): Editor {
    Editor(if STAR in rule.verbs then AllVerbs else CustomVerbs, set v | v in rule.verbs && v != STAR,
           if STAR in rule.resources then AllResources else CustomResources, set r | r in rule.resources && r != STAR)
  }

  function Chosen(names: seq<string>, on: set<string>): seq<string> {
    if names == [] then [] else (if names[0] in on then [names[0]] else []) + Chosen(names[1..], on)
  }

  /** save */
  function Save(c: Cluster, e: Editor): Rule {
    Rule(if e.verbMode == AllVerbs then [STAR] else Chosen(ALL_VERBS, SelectedVerbs(e)),
         if e.resourceMode == AllResources then [STAR] else Chosen(c.resources, SelectedResources(c, e)))
  }

  /** What a list of names permits: '*' permits every name. */
  ghost predicate Permits(names: seq<string>, name: string) {
    STAR in names || name in names
  }

  lemma {:induction false} ChosenMembers(names: seq<string>, on: set<string>, name: string)
    ensures name in Chosen(names, on) <==> name in names && name in on
    decreases |names|
  {
    if names != [] {
      ChosenMembers(names[1..], on, name);
      assert names == [names[0]] + names[1..];
    }
  }

  lemma {:induction false} ChosenPicks(names: seq<string>, on: set<string>)
    ensures Picked(Chosen(names, on), names, (name: string) => name in on)
    decreases |names|
  {
    var passes := (name: string) => name in on;
    if names == [] {
      PickedNothing(passes);
    } else {
      ChosenPicks(names[1..], on);
      PickedCons(names[0], Chosen(names[1..], on), names[1..], passes);
      assert names == [names[0]] + names[1..];
    }
  }

  const READS := ["get", "list", "proxy", "redirect", "watch"]
  const WRITES := ["create", "delete", "deletecollection", "patch", "post", "put", "update"]

  lemma KnownVerbs()
    ensures ALL_VERBS == READS + WRITES
  {
  }

  predicate ReadLetters(v: string) {
    |v| >= 2 && (v[0] in {'g', 'l', 'r', 'w'} || (v[0] == 'p' && v[1] == 'r'))
  }

  lemma ReadsHaveReadLetters(v: string)
    requires v in READ_VERBS
    ensures ReadLetters(v)
  {
  }

  lemma WritesHaveNone(i: nat)
    requires i < |WRITES|
    ensures !ReadLetters(WRITES[i])
  {
  }

  lemma ReadsAreRead(i: nat)
    requires i < |READS|
    ensures READS[i] in READ_VERBS
  {
  }

  lemma {:induction false} ChosenAll(a: seq<string>, b: seq<string>, on: set<string>)
    requires (forall v :: v in a ==> v in on) && forall v :: v in b ==> v !in on
    ensures Chosen(a + b, on) == a
    decreases |a| + |b|
  {
    if a != [] {
      assert (a + b)[1..] == a[1..] + b;
      ChosenAll(a[1..], b, on);
    } else if b != [] {
      assert a + b == b && [] + b[1..] == b[1..];
      ChosenAll([], b[1..], on);
    }
  }

  /** What is saved, in every mode: the five reading verbs, or '*', or the known verbs that are ticked; and
      the loaded resources that are not administrative, or none, or '*', or the loaded ones that are ticked. */
  lemma SavedRule(c: Cluster, e: Editor)
    ensures var verbs := Save(c, e).verbs;
      match e.verbMode
      case ReadOnly => verbs == ["get", "list", "proxy", "redirect", "watch"]
      case AllVerbs => verbs == ["*"]
      case CustomVerbs => Picked(verbs, ALL_VERBS, (v: string) => v in e.verbs)
    ensures var resources := Save(c, e).resources;
      match e.resourceMode
      case Safe => Picked(resources, c.resources, (r: string) => r !in c.admin)
      case NonResource => resources == []
      case AllResources => resources == ["*"]
      case CustomResources => Picked(resources, c.resources, (r: string) => r in e.resources)
  {
    SavedVerbs(c, e);
    SavedResources(c, e);
  }

  lemma ReadsSelected(e: Editor)
    requires e.verbMode == ReadOnly
    ensures forall v :: v in READS ==> v in SelectedVerbs(e)
    ensures forall v :: v in WRITES ==> v !in SelectedVerbs(e)
  {
    var rs, ws := READS, WRITES;
    KnownVerbs();
    forall v | v in rs ensures v in SelectedVerbs(e) {
      var i :| 0 <= i < |rs| && rs[i] == v;
      ReadsAreRead(i);
      assert v in rs + ws;
    }
    forall v | v in ws ensures v !in SelectedVerbs(e) {
      var i :| 0 <= i < |ws| && ws[i] == v;
      WritesHaveNone(i);
      if v in READ_VERBS {
        ReadsHaveReadLetters(v);
      }
    }
  }

  lemma SavedVerbs(c: Cluster, e: Editor)
    ensures e.verbMode == ReadOnly ==> Save(c, e).verbs == READS
    ensures e.verbMode == CustomVerbs ==> Picked(Save(c, e).verbs, ALL_VERBS, (v: string) => v in e.verbs)
  {
    var on := SelectedVerbs(e);
    if e.verbMode == ReadOnly {
      ReadsSelected(e);
      ChosenAll(READS, WRITES, on);
      KnownVerbs();
    } else if e.verbMode == CustomVerbs {
      ChosenPicks(ALL_VERBS, on);
      PicksAlike(Save(c, e).verbs, ALL_VERBS, (v: string) => v in on, (v: string) => v in e.verbs);
    }
  }

  lemma SavedResources(c: Cluster, e: Editor)
    ensures e.resourceMode == Safe ==> Picked(Save(c, e).resources, c.resources, (r: string) => r !in c.admin)
    ensures e.resourceMode == NonResource ==> Save(c, e).resources == []
    ensures e.resourceMode == CustomResources ==>
              Picked(Save(c, e).resources, c.resources, (r: string) => r in e.resources)
  {
    var on := SelectedResources(c, e);
    var saved := Save(c, e).resources;
    if e.resourceMode != AllResources {
      ChosenPicks(c.resources, on);
      match e.resourceMode
      case Safe => PicksAlike(saved, c.resources, (r: string) => r in on, (r: string) => r !in c.admin);
      case CustomResources => PicksAlike(saved, c.resources, (r: string) => r in on, (r: string) => r in e.resources);
      case NonResource =>
        ChosenAll([], c.resources, on);
        assert [] + c.resources == c.resources;
    }
  }

  lemma ClickSaves(c: Cluster, e: Editor, name: string, on: bool, v: string)
    requires v in ALL_VERBS
    ensures v in Save(c, ActAll(c, e, [ClickVerb(name, on)])).verbs <==> if v == name then on else VerbSelected(e, v)
  {
    var after := ToggleVerb(e, name, on);
    assert ActAll(c, e, [ClickVerb(name, on)]) == ActAll(c, after, []);
    ToggleVerbIsLocal(e, name, on, v);
    ChosenMembers(ALL_VERBS, SelectedVerbs(after), v);
  }

  lemma ReadsAreSelected(e: Editor, v: string)
    requires e.verbMode == ReadOnly
    ensures VerbSelected(e, v) <==> v in {"get", "list", "proxy", "redirect", "watch"}
  {
  }

  /** The untouched editor grants the five reading verbs on everything that is not administrative. One click
      changes that at the clicked verb alone, and so it does from "all verbs". */
  lemma OneClickSaves(c: Cluster, name: string, on: bool, v: string)
    requires v in ALL_VERBS
    ensures v in Save(c, FRESH).verbs <==> v in {"get", "list", "proxy", "redirect", "watch"}
    ensures Picked(Save(c, FRESH).resources, c.resources, (r: string) => r !in c.admin)
    ensures v in Save(c, ActAll(c, FRESH, [ClickVerb(name, on)])).verbs <==>
            if v == name then on else v in {"get", "list", "proxy", "redirect", "watch"}
    ensures v in Save(c, ActAll(c, FRESH, [SetVerbMode(AllVerbs), ClickVerb(name, on)])).verbs <==> v != name || on
  {
    var e := FRESH;
    var all := e.(verbMode := AllVerbs);
    ReadsAreSelected(e, v);
    ChosenMembers(ALL_VERBS, SelectedVerbs(e), v);
    SavedResources(c, e);
    ClickSaves(c, e, name, on, v);
    ClickSaves(c, all, name, on, v);
    ModeThenClick(c, e, name, on);
  }

  lemma ModeThenClick(c: Cluster, e: Editor, name: string, on: bool)
    ensures ActAll(c, e, [SetVerbMode(AllVerbs), ClickVerb(name, on)]) ==
            ActAll(c, e.(verbMode := AllVerbs), [ClickVerb(name, on)])
  {
    assert [SetVerbMode(AllVerbs), ClickVerb(name, on)][1..] == [ClickVerb(name, on)];
  }

  /** A saved rule permits exactly the verbs that are selected. */
  lemma SavedVerbsAreSelected(c: Cluster, e: Editor, v: string)
    requires v in ALL_VERBS
    ensures Permits(Save(c, e).verbs, v) <==> VerbSelected(e, v)
  {
    ChosenMembers(ALL_VERBS, SelectedVerbs(e), v);
    ChosenMembers(ALL_VERBS, SelectedVerbs(e), STAR);
  }

  /** And exactly the loaded resources that are selected. */
  lemma SavedResourcesAreSelected(c: Cluster, e: Editor, r: string)
    requires r in c.resources && STAR !in c.resources
    ensures Permits(Save(c, e).resources, r) <==> ResourceSelected(c, e, r)
  {
    ChosenMembers(c.resources, SelectedResources(c, e), r);
    ChosenMembers(c.resources, SelectedResources(c, e), STAR);
  }

  ghost predicate SamePermissions(a: seq<string>, b: seq<string>) {
    forall name :: Permits(a, name) <==> Permits(b, name)
  }

  /** Loading a rule and saving it unchanged preserves what its verbs permit if and only if they
      include '*' or are all known to the editor. */
  lemma VerbsRoundTrip(c: Cluster, rule: Rule)
    ensures SamePermissions(Save(c, Load(rule)).verbs, rule.verbs) <==>
            STAR in rule.verbs || forall v :: v in rule.verbs ==> v in ALL_VERBS
  {
    var saved := Save(c, Load(rule)).verbs;
    if STAR !in rule.verbs {
      forall v ensures v in saved <==> v in ALL_VERBS && v in rule.verbs {
        ChosenMembers(ALL_VERBS, SelectedVerbs(Load(rule)), v);
      }
      if v :| v in rule.verbs && v !in ALL_VERBS {
        assert Permits(rule.verbs, v) && !Permits(saved, v);
      }
    } else {
      assert saved == [STAR];
      assert Permits(saved, STAR) && STAR in saved;
    }
  }

  /** A '*' does not hide the other names of a rule: choosing "custom" after loading it ticks exactly the
      names it lists. */
  lemma LoadedNamesAreTicked(c: Cluster, rule: Rule, name: string)
    ensures var saved := Save(c, ActAll(c, Load(rule), [SetVerbMode(CustomVerbs), SetResourceMode(CustomResources)]));
      && (name in saved.verbs <==> name in ALL_VERBS && name in rule.verbs)
      && (name != STAR ==> (name in saved.resources <==> name in c.resources && name in rule.resources))
  {
    var e := Load(rule);
    var custom := e.(verbMode := CustomVerbs, resourceMode := CustomResources);
    var modes := [SetVerbMode(CustomVerbs), SetResourceMode(CustomResources)];
    assert modes[1..] == [SetResourceMode(CustomResources)];
    assert ActAll(c, e, modes) == ActAll(c, e.(verbMode := CustomVerbs), modes[1..]) == ActAll(c, custom, []);
    ChosenMembers(ALL_VERBS, SelectedVerbs(custom), name);
    ChosenMembers(c.resources, SelectedResources(c, custom), name);
  }

  /** Likewise for resources, against the resources the cluster has loaded. */
  lemma ResourcesRoundTrip(c: Cluster, rule: Rule)
    requires STAR !in c.resources
    ensures SamePermissions(Save(c, Load(rule)).resources, rule.resources) <==>
            STAR in rule.resources || forall r :: r in rule.resources ==> r in c.resources
  {
    var saved := Save(c, Load(rule)).resources;
    if STAR !in rule.resources {
      forall r ensures r in saved <==> r in c.resources && r in rule.resources {
        ChosenMembers(c.resources, SelectedResources(c, Load(rule)), r);
      }
      if r :| r in rule.resources && r !in c.resources {
        assert Permits(rule.resources, r) && !Permits(saved, r);
      }
    } else {
      assert STAR in saved;
    }
  }
}

/** The editor component: the same steps on fields. */
module RuleEditorComponent {
  import opened RuleEditorModel

  class EditRule {
    const cluster: Cluster
    var verbControl: VerbMode
    var verbsSet: set<string>
    var resourceControl: ResourceMode
    var resourceSet: set<string>

    ghost function State(): Editor
      reads this
    {
      Editor(verbControl, verbsSet, resourceControl, resourceSet)
    }

    constructor (cluster: Cluster)
      ensures State() == FRESH && this.cluster == cluster
    {
      this.cluster := cluster;
      verbControl, verbsSet, resourceControl, resourceSet := ReadOnly, {}, Safe, {};
    }

    /** The loading loops: `return false` inside forEach does not stop them. */
    method GetResource(rule: Rule)
      modifies this
      ensures State() == Load(rule)
    {
      var all, names := Collect(rule.verbs);
      verbsSet, verbControl := names, if all then AllVerbs else CustomVerbs;
      all, names := Collect(rule.resources);
      resourceSet, resourceControl := names, if all then AllResources else CustomResources;
    }

    method Collect(list: seq<string>) returns (all: bool, names: set<string>)
      ensures all <==> STAR in list
      ensures names == set v | v in list && v != STAR
    {
      all, names := false, {};
      var i := 0;
      while i < |list|
        invariant 0 <= i <= |list|
        invariant all <==> STAR in list[..i]
        invariant names == set v | v in list[..i] && v != STAR
      {
        assert list[..i + 1] == list[..i] + [list[i]];
        var v := list[i];
        i := i + 1;
        if v == STAR {
          all := true;
          continue;
        }
        names := names + {v};
      }
      assert list[..i] == list;
    }

    method ToggleVerbBox(name: string, isSelected: bool)
      modifies this
      ensures State() == ToggleVerb(old(State()), name, isSelected)
      ensures verbControl == CustomVerbs && (name in verbsSet <==> isSelected)
      ensures forall v :: v in ALL_VERBS && v != name ==>
                (v in verbsSet <==>
                  match old(verbControl)
                  case ReadOnly => v in {"get", "list", "proxy", "redirect", "watch"}
                  case AllVerbs => true
                  case CustomVerbs => v in old(verbsSet))
    {
      var names: set<string>;
      if verbControl == CustomVerbs {
        names := verbsSet;
      } else {
        names := set v | v in ALL_VERBS && VerbSelected(Editor(verbControl, verbsSet, resourceControl, resourceSet), v);
      }
      names := if isSelected then names + {name} else names - {name};
      verbsSet, verbControl := names, CustomVerbs;
    }

    method ToggleResourceBox(name: string, isSelected: bool)
      modifies this
      ensures State() == ToggleResource(cluster, old(State()), name, isSelected)
      ensures resourceControl == CustomResources && (name in resourceSet <==> isSelected)
      ensures forall r :: r in cluster.resources && r != name ==>
                (r in resourceSet <==>
                  match old(resourceControl)
                  case Safe => r !in cluster.admin
                  case NonResource => false
                  case AllResources => true
                  case CustomResources => r in old(resourceSet))
    {
      var names: set<string>;
      if resourceControl == CustomResources {
        names := resourceSet;
      } else {
        names := SelectedResources(cluster, Editor(verbControl, verbsSet, resourceControl, resourceSet));
      }
      names := if isSelected then names + {name} else names - {name};
      resourceSet, resourceControl := names, CustomResources;
    }
  }
}
