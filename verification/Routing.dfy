/** Automatic choice of a model: ideal model, candidate list, policy primary, then anything allowed.
    Go ranges over a map in an arbitrary order, so a lookup that is not exact may answer any match. */
module Routing {
  import opened Options
  import opened Text
  import Inventory

  datatype TaskClass = General | Coding | LightQA | Extraction

  datatype Settings = Settings(
    defaultModel: string, defaultAliases: seq<string>, fallbackDefault: string,
    tasks: map<TaskClass, seq<string>>, ideals: map<TaskClass, string>)

  datatype Policy = Policy(allowedModels: seq<string>, primaryModel: string) {
    /** The empty name is always allowed. */
    predicate Allowed(id: string) {
      id == "" || exists i :: 0 <= i < |allowedModels| && EqualFold(allowedModels[i], id)
    }
  }

  // ----- Names that differ only in case and punctuation

  predicate Punctuation(c: char) {
    c == ':' || c == '-' || c == '_' || c == '.'
  }

  function Strip(s: string): string {
    if s == "" then ""
    else (if Punctuation(s[0]) then "" else [s[0]]) + Strip(s[1..])
  }

  function Normal(s: string): string {
    Strip(Lower(Trim(s)))
  }

  lemma NormalOfLower(s: string)
    ensures Normal(Lower(s)) == Normal(s)
  {
    TrimOfLower(s);
    LowerTwice(Trim(s));
  }

  predicate Matches(candidate: string, available: map<string, string>, k: string)
    requires k in available
  {
    Normal(k) == Normal(candidate) || Normal(available[k]) == Normal(candidate)
  }

  /** `answer` is one that looking `candidate` up may give. */
  ghost predicate Finds(candidate: string, available: map<string, string>, answer: Option<string>) {
    if candidate == "" then answer == None
    else if Lower(candidate) in available then answer == Some(available[Lower(candidate)])
    else match answer
      case None => forall k :: k in available ==> !Matches(candidate, available, k)
      case Some(v) => exists k :: k in available && available[k] == v && Matches(candidate, available, k)
  }

  method LookupCanonical(candidate: string, available: map<string, string>) returns (answer: Option<string>)
    ensures Finds(candidate, available, answer)
  {
    hide Lower, Normal;
    if candidate == "" {
      return None;
    }
    if Lower(candidate) in available {
      return Some(available[Lower(candidate)]);
    }
    var todo := available.Keys;
    while todo != {}
      invariant todo <= available.Keys
      invariant forall k :: k in available && k !in todo ==> !Matches(candidate, available, k)
      decreases |todo|
    {
      var k :| k in todo;
      if Matches(candidate, available, k) {
        return Some(available[k]);
      }
      todo := todo - {k};
    }
    answer := None;
  }

  lemma FoundIsAvailable(candidate: string, available: map<string, string>, answer: Option<string>)
    requires Finds(candidate, available, answer) && answer.Some?
    ensures answer.value in available.Values
  {
    hide Lower, Normal;
  }

  /** No two models of the inventory differ only in case and punctuation. */
  ghost predicate Unambiguous(available: map<string, string>) {
    forall k, l :: k in available && l in available && Normal(k) == Normal(l) ==> k == l
  }

  /** In such an inventory the order of the map never shows: a lookup has one answer. */
  lemma OneAnswer(candidate: string, available: map<string, string>, a: Option<string>, b: Option<string>)
    requires Inventory.Keyed(available) && Unambiguous(available)
    requires Finds(candidate, available, a) && Finds(candidate, available, b)
    ensures a == b
  {
    hide Lower, Normal, Blank;
    if candidate != "" && Lower(candidate) !in available && a.Some? && b.Some? {
      var k :| k in available && available[k] == a.value && Matches(candidate, available, k);
      var l :| l in available && available[l] == b.value && Matches(candidate, available, l);
      NormalOfLower(available[k]);
      NormalOfLower(available[l]);
    }
  }

  /** A model of the inventory looked up again is itself, in any inventory. */
  lemma FindsItself(available: map<string, string>, id: string, answer: Option<string>)
    requires Inventory.Keyed(available) && id in available.Values
    requires Finds(id, available, answer)
    ensures answer == Some(id)
  {
    hide Lower, Normal;
    var k :| k in available && available[k] == id;
    assert Lower(id) == k && !Blank(id);
  }

  // ----- The default model

  /** The first of `names` that can be found. */
  ghost predicate FindsFirst(names: seq<string>, available: map<string, string>, answer: Option<string>) {
    match answer
    case None => forall i :: 0 <= i < |names| ==> Finds(names[i], available, None)
    case Some(_) => exists i :: 0 <= i < |names| && Finds(names[i], available, answer)
                             && forall j :: 0 <= j < i ==> Finds(names[j], available, None)
  }

  method ResolveDefault(s: Settings, available: map<string, string>) returns (resolved: Option<string>)
    ensures FindsFirst(s.defaultAliases + [s.defaultModel], available, resolved)
  {
    hide Finds;
    var names := s.defaultAliases + [s.defaultModel];
    for i := 0 to |names|
      invariant forall j :: 0 <= j < i ==> Finds(names[j], available, None)
    {
      resolved := LookupCanonical(names[i], available);
      if resolved.Some? {
        return;
      }
    }
    resolved := None;
  }

  // ----- The candidate scan

  /** What scanning one candidate may find; the default model stands for its resolution. */
  ghost predicate ScanFinds(s: Settings, c: string, available: map<string, string>, resolved: Option<string>,
                            answer: Option<string>)
  {
    if Blank(c) then answer == None
    else if EqualFold(c, s.defaultModel) then
      if resolved.Some? then Finds(resolved.value, available, answer) else answer == None
    else Finds(c, available, answer)
  }

  predicate Usable(pol: Policy, answer: Option<string>) {
    answer.Some? && pol.Allowed(answer.value)
  }

  /** A plain first-match scan: `answers` are the lookups made, and only the last can be usable. */
  ghost predicate FirstMatch(s: Settings, candidates: seq<string>, pol: Policy, available: map<string, string>,
                             resolved: Option<string>, answers: seq<Option<string>>, chosen: Option<string>)
  {
    && |answers| <= |candidates|
    && (forall i :: 0 <= i < |answers| ==> ScanFinds(s, candidates[i], available, resolved, answers[i]))
    && match chosen
       case None => |answers| == |candidates| && forall i :: 0 <= i < |answers| ==> !Usable(pol, answers[i])
       case Some(_) =>
         && |answers| > 0 && answers[|answers| - 1] == chosen && Usable(pol, chosen)
         && forall i :: 0 <= i < |answers| - 1 ==> !Usable(pol, answers[i])
  }

  /** The models seen so far, by lower-case id, are ones the policy does not allow. */
  ghost predicate SeenAreRefused(seen: set<string>, pol: Policy) {
    forall id: string :: Lower(id) in seen ==> !pol.Allowed(id)
  }

  lemma SeeOneMore(seen: set<string>, pol: Policy, id: string)
    requires SeenAreRefused(seen, pol) && !pol.Allowed(id)
    ensures SeenAreRefused(seen + {Lower(id)}, pol)
  {
    hide Lower;
    forall other: string | Lower(other) == Lower(id) ensures !pol.Allowed(other) {
      assert |Lower(other)| == |other| && |Lower(id)| == |id|;
    }
  }

  /** Remembering the models already seen changes nothing: the result is that of the plain scan. */
  method FirstUsable(s: Settings, candidates: seq<string>, pol: Policy, available: map<string, string>,
                     resolved: Option<string>)
    returns (chosen: Option<string>, ghost answers: seq<Option<string>>)
    ensures FirstMatch(s, candidates, pol, available, resolved, answers, chosen)
    ensures chosen.Some? ==> pol.Allowed(chosen.value)
  {
    var seen: set<string> := {};
    answers := [];
    chosen := None;
    hide Policy.Allowed, Lower, ScanFinds;
    for n := 0 to |candidates|
      invariant |answers| == n && chosen == None
      invariant forall i :: 0 <= i < n ==> ScanFinds(s, candidates[i], available, resolved, answers[i])
      invariant forall i :: 0 <= i < n ==> !Usable(pol, answers[i])
      invariant SeenAreRefused(seen, pol)
    {
      var answer := Scan(s, candidates[n], available, resolved);
      answers := answers + [answer];
      if answer.Some? {
        if Lower(answer.value) in seen {
          assert !pol.Allowed(answer.value);
        } else if pol.Allowed(answer.value) {
          chosen := answer;
          return;
        } else {
          SeeOneMore(seen, pol, answer.value);
          seen := seen + {Lower(answer.value)};
        }
      }
    }
  }

  method Scan(s: Settings, c: string, available: map<string, string>, resolved: Option<string>)
    returns (answer: Option<string>)
    ensures ScanFinds(s, c, available, resolved, answer)
  {
    hide Finds, Lower, Trim;
    if Blank(c) {
      return None;
    }
    var cand := c;
    if EqualFold(c, s.defaultModel) {
      if resolved.None? {
        return None;
      }
      cand := resolved.value;
    }
    answer := LookupCanonical(cand, available);
  }

  // ----- The whole decision

  datatype Source = Ideal | Candidates | PolicyPrimary | LastResort

  datatype Choice = Choice(id: string, source: Source)

  /** The lookups one decision made. */
  datatype Lookups = Lookups(
    ideal: Option<string>, resolved: Option<string>, answers: seq<Option<string>>,
    listed: Option<string>, primary: Option<string>)

  function IdealOf(s: Settings, task: TaskClass): string {
    if task in s.ideals then Trim(s.ideals[task]) else ""
  }

  function CandidatesOf(s: Settings, task: TaskClass, resolved: Option<string>): seq<string> {
    Listed(s, task)
    + (if task.General? then []
       else [if resolved.Some? then resolved.value else "", s.fallbackDefault, s.defaultModel])
  }

  /** `choice` is what the preference order makes of the lookups. */
  ghost predicate Routed(s: Settings, task: TaskClass, pol: Policy, available: map<string, string>,
                         l: Lookups, choice: Option<Choice>)
  {
    && Finds(IdealOf(s, task), available, l.ideal)
    && if Usable(pol, l.ideal) then choice == Some(Choice(l.ideal.value, Ideal))
       else
         && FindsFirst(s.defaultAliases + [s.defaultModel], available, l.resolved)
         && FirstMatch(s, CandidatesOf(s, task, l.resolved), pol, available, l.resolved, l.answers, l.listed)
         && if l.listed.Some? then choice == Some(Choice(l.listed.value, Candidates))
            else
              && Finds(pol.primaryModel, available, l.primary)
              && if Usable(pol, l.primary) then choice == Some(Choice(l.primary.value, PolicyPrimary))
                 else Rest(pol, available, choice)
  }

  ghost predicate Rest(pol: Policy, available: map<string, string>, choice: Option<Choice>) {
    match choice
    case None => forall id :: id in available.Values ==> !pol.Allowed(id)
    case Some(c) => c.source == LastResort && c.id in available.Values && pol.Allowed(c.id)
  }

  /** Any allowed model, in the order of the map. */
  method AnyAllowed(pol: Policy, available: map<string, string>) returns (choice: Option<Choice>)
    ensures Rest(pol, available, choice)
  {
    var todo := available.Keys;
    while todo != {}
      invariant todo <= available.Keys
      invariant forall k :: k in available && k !in todo ==> !pol.Allowed(available[k])
      decreases |todo|
    {
      var k :| k in todo;
      if pol.Allowed(available[k]) {
        return Some(Choice(available[k], LastResort));
      }
      todo := todo - {k};
    }
    choice := None;
  }

  /** The order of preference: ideal, candidates, policy primary, anything allowed. */
  method Prefer(s: Settings, task: TaskClass, pol: Policy, available: map<string, string>)
    returns (choice: Option<Choice>, ghost l: Lookups)
    ensures Routed(s, task, pol, available, l, choice)
  {
    hide Policy.Allowed, Finds, FindsFirst, FirstMatch, Rest, IdealOf, CandidatesOf;
    l := Lookups(None, None, [], None, None);
    var answer := LookupCanonical(IdealOf(s, task), available);
    l := l.(ideal := answer);
    if answer.Some? && pol.Allowed(answer.value) {
      return Some(Choice(answer.value, Ideal)), l;
    }
    var resolved := ResolveDefault(s, available);
    var listed, answers := FirstUsable(s, CandidatesOf(s, task, resolved), pol, available, resolved);
    l := l.(resolved := resolved, answers := answers, listed := listed);
    if listed.Some? {
      return Some(Choice(listed.value, Candidates)), l;
    }
    answer := LookupCanonical(pol.primaryModel, available);
    l := l.(primary := answer);
    if answer.Some? && pol.Allowed(answer.value) {
      return Some(Choice(answer.value, PolicyPrimary)), l;
    }
    choice := AnyAllowed(pol, available);
  }

  /** The choice for one request. */
  method Decide(s: Settings, task: TaskClass, pol: Policy, available: map<string, string>)
    returns (choice: Option<Choice>, ghost l: Lookups)
    ensures Routed(s, task, pol, available, l, choice)
    ensures choice.Some? ==> choice.value.id in available.Values && pol.Allowed(choice.value.id)
    ensures choice == None <==> forall id :: id in available.Values ==> !pol.Allowed(id)
  {
    hide *;
    choice, l := Prefer(s, task, pol, available);
    RoutedIsSoundAndComplete(s, task, pol, available, l, choice);
  }

  /** Routing is sound and complete: it chooses an available, allowed model, and fails only if there is none. */
  lemma RoutedIsSoundAndComplete(s: Settings, task: TaskClass, pol: Policy, available: map<string, string>,
                                 l: Lookups, choice: Option<Choice>)
    requires Routed(s, task, pol, available, l, choice)
    ensures choice.Some? ==> choice.value.id in available.Values && pol.Allowed(choice.value.id)
    ensures choice == None <==> forall id :: id in available.Values ==> !pol.Allowed(id)
  {
    hide Policy.Allowed, Finds, FindsFirst, FirstMatch, IdealOf, CandidatesOf, Inventory.Keyed;
    if Usable(pol, l.ideal) {
      FoundIsAvailable(IdealOf(s, task), available, l.ideal);
    } else if l.listed.Some? {
      ListedIsAvailable(s, CandidatesOf(s, task, l.resolved), pol, available, l.resolved, l.answers, l.listed);
    } else if Usable(pol, l.primary) {
      FoundIsAvailable(pol.primaryModel, available, l.primary);
    }
  }

  lemma ListedIsAvailable(s: Settings, candidates: seq<string>, pol: Policy, available: map<string, string>,
                          resolved: Option<string>, answers: seq<Option<string>>, chosen: Option<string>)
    requires FirstMatch(s, candidates, pol, available, resolved, answers, chosen) && chosen.Some?
    ensures chosen.value in available.Values && pol.Allowed(chosen.value)
  {
    hide Policy.Allowed, Finds, Lower, Trim, Blank;
    var n := |answers| - 1;
    assert ScanFinds(s, candidates[n], available, resolved, answers[n]);
    assert exists c :: Finds(c, available, chosen) by {
      assert Finds(candidates[n], available, chosen) || Finds(resolved.value, available, chosen);
    }
    var c :| Finds(c, available, chosen);
    FoundIsAvailable(c, available, chosen);
  }

  // ----- What the preference order promises a configuration

  /** A configured ideal model that the inventory has and the policy allows is the choice; and only such a model
      is ever chosen as the ideal one. */
  lemma IdealIsChosen(s: Settings, task: TaskClass, pol: Policy, available: map<string, string>,
                      l: Lookups, choice: Option<Choice>)
    requires Routed(s, task, pol, available, l, choice) && task in s.ideals
    ensures var ideal := Trim(s.ideals[task]);
            && (ideal != "" && Lower(ideal) in available && pol.Allowed(available[Lower(ideal)]) ==>
                  choice == Some(Choice(available[Lower(ideal)], Ideal)))
            && (choice.Some? && choice.value.source == Ideal ==>
                  ideal != "" && Finds(ideal, available, Some(choice.value.id)))
  {
    hide Policy.Allowed, FindsFirst, FirstMatch, CandidatesOf, Lower, Trim, Normal;
  }

  function Listed(s: Settings, task: TaskClass): seq<string> {
    if task in s.tasks then s.tasks[task] else []
  }

  /** None of these models can be used. */
  ghost predicate NoneUsable(s: Settings, names: seq<string>, pol: Policy, available: map<string, string>,
                             resolved: Option<string>)
  {
    forall i, a :: 0 <= i < |names| && ScanFinds(s, names[i], available, resolved, a) ==> !Usable(pol, a)
  }

  /** The scan stops at the first candidate that can be used. */
  lemma FirstUsableIsListed(s: Settings, candidates: seq<string>, k: nat, pol: Policy,
                            available: map<string, string>, resolved: Option<string>,
                            answers: seq<Option<string>>, chosen: Option<string>, id: string)
    requires FirstMatch(s, candidates, pol, available, resolved, answers, chosen)
    requires k < |candidates| && NoneUsable(s, candidates[..k], pol, available, resolved) && pol.Allowed(id)
    requires forall a :: ScanFinds(s, candidates[k], available, resolved, a) ==> a == Some(id)
    ensures chosen == Some(id)
  {
    hide Policy.Allowed, ScanFinds;
    assert forall i :: 0 <= i < k ==> candidates[..k][i] == candidates[i];
    assert forall i :: 0 <= i < k && i < |answers| ==> !Usable(pol, answers[i]);
    assert k < |answers| ==> answers[k] == Some(id);
  }

  /** The default as it was resolved, scanned as a candidate, is itself. */
  lemma ResolvedScansToItself(s: Settings, available: map<string, string>, resolved: Option<string>,
                              answer: Option<string>)
    requires Inventory.Keyed(available) && resolved.Some?
    requires FindsFirst(s.defaultAliases + [s.defaultModel], available, resolved)
    requires ScanFinds(s, resolved.value, available, resolved, answer)
    ensures answer == resolved
  {
    hide Finds, EqualFold, Lower, Trim;
    var names := s.defaultAliases + [s.defaultModel];
    var i :| 0 <= i < |names| && Finds(names[i], available, resolved);
    FoundIsAvailable(names[i], available, resolved);
    assert !Blank(resolved.value);
    FindsItself(available, resolved.value, answer);
  }

  /** For a task other than the general one, the default model stands in when the ideal model and every listed
      one are out; the fallback default comes after it. For the general task only listed models are candidates. */
  lemma DefaultIsChosen(s: Settings, task: TaskClass, pol: Policy, available: map<string, string>,
                        l: Lookups, choice: Option<Choice>)
    requires Routed(s, task, pol, available, l, choice) && Inventory.Keyed(available)
    requires !Usable(pol, l.ideal) && NoneUsable(s, Listed(s, task), pol, available, l.resolved)
    ensures task != General && Usable(pol, l.resolved) ==>
              choice == Some(Choice(l.resolved.value, Candidates))
    ensures task == General ==> choice.None? || choice.value.source in {PolicyPrimary, LastResort}
  {
    hide Policy.Allowed, ScanFinds, Finds, FindsFirst, FirstMatch, Inventory.Keyed;
    var listed := Listed(s, task);
    if task != General && Usable(pol, l.resolved) {
      var candidates := CandidatesOf(s, task, l.resolved);
      assert candidates[..|listed|] == listed && candidates[|listed|] == l.resolved.value;
      forall a | ScanFinds(s, l.resolved.value, available, l.resolved, a) ensures a == l.resolved {
        ResolvedScansToItself(s, available, l.resolved, a);
      }
      FirstUsableIsListed(s, candidates, |listed|, pol, available, l.resolved, l.answers, l.listed, l.resolved.value);
    } else if task == General {
      assert CandidatesOf(s, task, l.resolved) == listed;
      NothingListed(s, listed, pol, available, l.resolved, l.answers, l.listed);
    }
  }

  lemma NothingListed(s: Settings, candidates: seq<string>, pol: Policy, available: map<string, string>,
                      resolved: Option<string>, answers: seq<Option<string>>, chosen: Option<string>)
    requires FirstMatch(s, candidates, pol, available, resolved, answers, chosen)
    requires NoneUsable(s, candidates, pol, available, resolved)
    ensures chosen == None
  {
    hide Policy.Allowed, ScanFinds;
  }

  /** When the default model cannot be found, the fallback default stands in, if the inventory has it. */
  lemma FallbackIsChosen(s: Settings, task: TaskClass, pol: Policy, available: map<string, string>,
                         l: Lookups, choice: Option<Choice>)
    requires Routed(s, task, pol, available, l, choice) && Inventory.Keyed(available) && task != General
    requires !Usable(pol, l.ideal) && NoneUsable(s, Listed(s, task), pol, available, l.resolved)
    requires l.resolved == None && !Blank(s.fallbackDefault) && !EqualFold(s.fallbackDefault, s.defaultModel)
    ensures Lower(s.fallbackDefault) in available && pol.Allowed(available[Lower(s.fallbackDefault)]) ==>
              choice == Some(Choice(available[Lower(s.fallbackDefault)], Candidates))
  {
    hide Policy.Allowed, FindsFirst, FirstMatch, Rest, Inventory.Keyed, Lower, Trim, EqualFold, Normal;
    var listed := Listed(s, task);
    var candidates := CandidatesOf(s, task, l.resolved);
    var k := |listed| + 1;
    assert candidates[..k] == listed + [""] && candidates[k] == s.fallbackDefault;
    BlankIsSkipped(s, listed, pol, available, l.resolved);
    assert s.fallbackDefault != "" by {
      assert Blank("") by { EmptyIsBlank(); }
    }
    if Lower(s.fallbackDefault) in available && pol.Allowed(available[Lower(s.fallbackDefault)]) {
      FirstUsableIsListed(s, candidates, k, pol, available, l.resolved, l.answers, l.listed,
                          available[Lower(s.fallbackDefault)]);
    }
  }

  lemma EmptyIsBlank()
    ensures Blank("")
  {
  }

  lemma BlankIsSkipped(s: Settings, names: seq<string>, pol: Policy, available: map<string, string>,
                       resolved: Option<string>)
    requires NoneUsable(s, names, pol, available, resolved)
    ensures NoneUsable(s, names + [""], pol, available, resolved)
  {
    EmptyIsBlank();
    hide Policy.Allowed, Finds, EqualFold, Lower, Trim, Blank;
  }

  /** Of a name, looking up ignores colons, dashes, underscores and dots, and nothing else. */
  lemma StripAt(a: string, c: char, b: string)
    ensures Strip(a + [c] + b) == Strip(a) + (if c in {':', '-', '_', '.'} then "" else [c]) + Strip(b)
  {
    StripOne(c);
    hide Strip;
    StripConcat(a, [c]);
    StripConcat(a + [c], b);
  }

  lemma StripOne(c: char)
    ensures Strip([c]) == if c in {':', '-', '_', '.'} then "" else [c]
  {
    assert [c][1..] == "";
  }

  // ----- The order of the map only shows in the last resort

  lemma SameDefault(names: seq<string>, available: map<string, string>, a: Option<string>, b: Option<string>)
    requires Inventory.Keyed(available) && Unambiguous(available)
    requires FindsFirst(names, available, a) && FindsFirst(names, available, b)
    ensures a == b
  {
    hide Finds, Unambiguous, Inventory.Keyed;
    if a.Some? && b.Some? {
      var i :| 0 <= i < |names| && Finds(names[i], available, a)
               && forall j :: 0 <= j < i ==> Finds(names[j], available, None);
      var k :| 0 <= k < |names| && Finds(names[k], available, b)
               && forall j :: 0 <= j < k ==> Finds(names[j], available, None);
      if i < k {
        OneAnswer(names[i], available, a, None);
      } else if k < i {
        OneAnswer(names[k], available, b, None);
      } else {
        OneAnswer(names[i], available, a, b);
      }
    } else if a.Some? {
      var i :| 0 <= i < |names| && Finds(names[i], available, a);
      OneAnswer(names[i], available, a, None);
    } else if b.Some? {
      var i :| 0 <= i < |names| && Finds(names[i], available, b);
      OneAnswer(names[i], available, b, None);
    }
  }

  lemma SameScan(s: Settings, c: string, available: map<string, string>, resolved: Option<string>,
                 a: Option<string>, b: Option<string>)
    requires Inventory.Keyed(available) && Unambiguous(available)
    requires ScanFinds(s, c, available, resolved, a) && ScanFinds(s, c, available, resolved, b)
    ensures a == b
  {
    hide Finds, Unambiguous, Inventory.Keyed, Blank, EqualFold;
    if Finds(c, available, a) && Finds(c, available, b) {
      OneAnswer(c, available, a, b);
    }
    if resolved.Some? && Finds(resolved.value, available, a) && Finds(resolved.value, available, b) {
      OneAnswer(resolved.value, available, a, b);
    }
  }

  lemma SameListed(s: Settings, candidates: seq<string>, pol: Policy, available: map<string, string>,
                   resolved: Option<string>, answers: seq<Option<string>>, chosen: Option<string>,
                   answers': seq<Option<string>>, chosen': Option<string>)
    requires Inventory.Keyed(available) && Unambiguous(available)
    requires FirstMatch(s, candidates, pol, available, resolved, answers, chosen)
    requires FirstMatch(s, candidates, pol, available, resolved, answers', chosen')
    ensures chosen == chosen'
  {
    hide ScanFinds, Usable, Unambiguous, Inventory.Keyed;
    forall i | 0 <= i < |answers| && i < |answers'| ensures answers[i] == answers'[i] {
      SameScan(s, candidates[i], available, resolved, answers[i], answers'[i]);
    }
  }

  /** Two decisions over one unambiguous inventory agree, whatever order the map is ranged over, unless
      both came down to the last resort. */
  lemma RoutingIsDeterministic(s: Settings, task: TaskClass, pol: Policy, available: map<string, string>,
                               l: Lookups, choice: Option<Choice>, l': Lookups, choice': Option<Choice>)
    requires Inventory.Keyed(available) && Unambiguous(available)
    requires Routed(s, task, pol, available, l, choice) && Routed(s, task, pol, available, l', choice')
    ensures choice == choice'
         || (choice.Some? && choice'.Some? && choice.value.source == choice'.value.source == LastResort)
  {
    hide Policy.Allowed, Finds, FindsFirst, FirstMatch, IdealOf, CandidatesOf, Usable, Unambiguous, Inventory.Keyed;
    OneAnswer(IdealOf(s, task), available, l.ideal, l'.ideal);
    if !Usable(pol, l.ideal) {
      SameDefault(s.defaultAliases + [s.defaultModel], available, l.resolved, l'.resolved);
      SameListed(s, CandidatesOf(s, task, l.resolved), pol, available, l.resolved,
                 l.answers, l.listed, l'.answers, l'.listed);
      if l.listed.None? {
        OneAnswer(pol.primaryModel, available, l.primary, l'.primary);
      }
    }
  }

  // ----- Using the inventory

  /** The models a request lists, or the snapshot when it lists none. */
  function Effective(requested: seq<string>, snapshot: map<string, string>): map<string, string> {
    if |Inventory.ToAvailableMap(requested)| > 0 then Inventory.ToAvailableMap(requested) else snapshot
  }

  /** If the request lists any model, it is one of those; only otherwise the inventory counts. */
  lemma RequestedComeFirst(requested: seq<string>, snapshot: map<string, string>)
    ensures (exists id :: id in requested && !Blank(id)) ==>
              forall id :: id in Effective(requested, snapshot).Values ==> id in requested
    ensures (forall id :: id in requested ==> Blank(id)) ==> Effective(requested, snapshot) == snapshot
  {
    hide Lower, Trim;
    var listed := Inventory.ToAvailableMap(requested);
    if id :| id in requested && !Blank(id) {
      assert Lower(id) in listed;
      assert |listed| > 0;
    } else {
      BlanksListNothing(requested);
    }
  }

  lemma {:induction false} BlanksListNothing(requested: seq<string>)
    requires forall id :: id in requested ==> Blank(id)
    ensures Inventory.ToAvailableMap(requested) == map[]
  {
    if requested != [] {
      BlanksListNothing(requested[..|requested| - 1]);
    }
  }

  /** One routed request: the model chosen is marked as used now, and nothing else changes. */
  method ChooseWithState(r: Inventory.Router, s: Settings, requested: seq<string>, task: TaskClass, pol: Policy,
                         now: nat)
    returns (choice: Option<Choice>, pull: bool, ghost l: Lookups)
    requires Inventory.Keyed(r.available)
    modifies r`lastUsed
    ensures var available := Effective(requested, r.available);
            && (available != map[] ==> Routed(s, task, pol, available, l, choice))
            && (choice.Some? ==> choice.value.id in available.Values && pol.Allowed(choice.value.id))
            && (choice == None <==> forall id :: id in available.Values ==> !pol.Allowed(id))
            && (pull <==> available != map[] && IdealOf(s, task) != "" && !Usable(pol, l.ideal))
    ensures choice.Some? && (exists id :: id in requested && !Blank(id)) ==> choice.value.id in requested
    ensures choice.Some? && (forall id :: id in requested ==> Blank(id)) ==> choice.value.id in r.available.Values
    ensures r.lastUsed == if choice.Some? then old(r.lastUsed)[Lower(choice.value.id) := now] else old(r.lastUsed)
    ensures choice.Some? && now > 0 && (forall k :: k in old(r.lastUsed) ==> old(r.lastUsed)[k] < now) ==>
              GoesLast(r, choice.value.id)
  {
    hide Policy.Allowed, Usable, Routed, IdealOf, Lower, Blank, Inventory.Keyed, Inventory.ToAvailableMap;
    var available := Effective(requested, r.available);
    if available == map[] {
      return None, false, Lookups(None, None, [], None, None);
    }
    RequestedComeFirst(requested, r.available);
    choice, l := Decide(s, task, pol, available);
    pull := IdealOf(s, task) != "" && !(choice.Some? && choice.value.source == Ideal);
    IdealIsIdeal(s, task, pol, available, l, choice);
    if choice.Some? {
      r.lastUsed := r.lastUsed[Lower(choice.value.id) := now];
      if now > 0 && forall k :: k in old(r.lastUsed) ==> old(r.lastUsed)[k] < now {
        MarkedGoesLast(r, old(r.lastUsed), choice.value.id, now);
      }
    }
  }

  /** In every order in which the router could prune, this model is the last, if it is there at all. */
  ghost predicate GoesLast(r: Inventory.Router, id: string)
    reads r
  {
    forall order: seq<string>, i: nat ::
      r.PruneOrder(order) && i < |order| && Lower(order[i]) == Lower(id) ==> i == |order| - 1
  }

  /** Marking a model as used later than all others puts it last. */
  lemma MarkedGoesLast(r: Inventory.Router, before: map<string, nat>, id: string, now: nat)
    requires now > 0 && r.lastUsed == before[Lower(id) := now] && forall k :: k in before ==> before[k] < now
    ensures GoesLast(r, id)
  {
    hide Lower;
    assert r.UsedLast(id);
    hide *;
    forall order: seq<string>, i: nat | r.PruneOrder(order) && i < |order| && Lower(order[i]) == Lower(id)
      ensures i == |order| - 1
    {
      r.LastUsedIsLast(order, id, i);
    }
    GoesLastIs(r, id);
  }

  lemma GoesLastIs(r: Inventory.Router, id: string)
    requires forall order: seq<string>, i: nat ::
               r.PruneOrder(order) && i < |order| && Lower(order[i]) == Lower(id) ==> i == |order| - 1
    ensures GoesLast(r, id)
  {
    hide Lower;
  }

  lemma IdealIsIdeal(s: Settings, task: TaskClass, pol: Policy, available: map<string, string>,
                     l: Lookups, choice: Option<Choice>)
    requires Routed(s, task, pol, available, l, choice)
    ensures Usable(pol, l.ideal) <==> choice.Some? && choice.value.source == Ideal
  {
    hide Policy.Allowed, Finds, FindsFirst, FirstMatch, IdealOf, CandidatesOf, Usable;
  }

  // ----- Routing and pruning do not agree on names

  /** Whatever the aliases, the model the default is routed to is spared by pruning exactly when some
      protected name, ignoring case and surrounding space, is the very id of it in the inventory. */
  lemma RoutedDefaultProtectedExactly(r: Inventory.Router, s: Settings, id: string)
    requires Inventory.Keyed(r.available)
    requires FindsFirst(s.defaultAliases + [s.defaultModel], r.available, Some(id))
    ensures r.Protected(id) <==>
            exists m :: m in [r.defaultModel, r.fallbackDefault] + r.idealModels && !Blank(m)
                        && Lower(Trim(m)) in r.available && r.available[Lower(Trim(m))] == id
  {
    hide Lower, Normal, Trim, Blank, Finds;
    var i :| 0 <= i && i < |s.defaultAliases + [s.defaultModel]|
             && Finds((s.defaultAliases + [s.defaultModel])[i], r.available, Some(id));
    FoundIsAvailable((s.defaultAliases + [s.defaultModel])[i], r.available, Some(id));
    var k :| k in r.available && r.available[k] == id;
    assert Lower(id) == k;
  }

  /** For a single protected name: of the models it can itself be resolved to, pruning spares for its sake
      the one of that very name, and none that is found by its normal form alone. */
  lemma ProtectedExactlyByName(r: Inventory.Router, name: string, id: string)
    requires Inventory.Keyed(r.available) && name == Trim(name) && name != ""
    requires name in [r.defaultModel, r.fallbackDefault] + r.idealModels
    requires Finds(name, r.available, Some(id))
    ensures Lower(Trim(name)) == Lower(id) <==> Lower(name) in r.available
    ensures Lower(name) in r.available ==> r.Protected(id)
  {
    hide Lower, Normal, Trim;
    if Lower(name) !in r.available {
      FoundIsAvailable(name, r.available, Some(id));
      var k :| k in r.available && r.available[k] == id;
      assert Lower(id) == k;
    }
  }

  /** No configuration protects its default in every inventory: there is always one in which the model the
      default is routed to is not protected, a variant of the name with enough dashes behind it. */
  lemma NoConfigurationProtectsItsDefault(r: Inventory.Router, s: Settings)
    returns (available: map<string, string>, id: string)
    requires s.defaultModel == r.defaultModel && !Blank(r.defaultModel)
    ensures Inventory.Keyed(available) && FindsFirst(s.defaultAliases + [s.defaultModel], available, Some(id))
    ensures !r.Protected(id)
  {
    hide *;
    var names := [r.defaultModel, r.fallbackDefault] + r.idealModels;
    id := Trim(r.defaultModel) + Dashes(Longest(names) + 1);
    available := map[Lower(id) := id];
    LongerIsUnprotected(r, id);
    DashedName(r.defaultModel, Longest(names) + 1);
    OnlyModelIsFound(s.defaultAliases + [s.defaultModel], available, id);
  }

  function Dashes(n: nat): (r: string)
    ensures |r| == n
  {
    if n == 0 then "" else "-" + Dashes(n - 1)
  }

  function Longest(names: seq<string>): (n: nat)
    ensures forall m :: m in names ==> |m| <= n
  {
    if names == [] then 0
    else
      var rest := Longest(names[1..]);
      assert forall m :: m in names ==> m == names[0] || m in names[1..];
      if |names[0]| > rest then |names[0]| else rest
  }

  lemma LongerIsUnprotected(r: Inventory.Router, id: string)
    requires forall m :: m in [r.defaultModel, r.fallbackDefault] + r.idealModels ==> |m| < |id|
    ensures !r.Protected(id)
  {
    hide Lower, Trim, Blank;
    forall m | m in [r.defaultModel, r.fallbackDefault] + r.idealModels ensures Lower(Trim(m)) != Lower(id) {
      TrimIsShorter(m);
      assert |Lower(Trim(m))| == |Trim(m)| && |Lower(id)| == |id|;
    }
  }

  lemma TrimIsShorter(s: string)
    ensures |Trim(s)| <= |s|
  {
  }

  /** Dashes behind a name leave its normal form as it is, and it is still no blank name. */
  lemma DashedName(name: string, n: nat)
    requires !Blank(name) && n >= 1
    ensures var id := Trim(name) + Dashes(n);
            Normal(id) == Normal(name) && !Blank(id) && |id| >= n
  {
    hide Lower, Trim, Strip, Dashes;
    var core, id := Trim(name), Trim(name) + Dashes(n);
    DashesLast(n);
    TrimStays(name);
    assert id[|id| - 1] == Dashes(n)[n - 1] == '-' && id[0] == core[0];
    TrimmedStays(id);
    LowerConcat(core, Dashes(n));
    StripConcat(Lower(core), Lower(Dashes(n)));
    StripDashes(n);
    assert Strip(Lower(core)) + "" == Strip(Lower(core));
  }

  lemma DashesLast(n: nat)
    requires n >= 1
    ensures Dashes(n)[n - 1] == '-'
  {
  }

  lemma TrimStays(s: string)
    requires Trim(s) != ""
    ensures !IsSpace(Trim(s)[0])
  {
    var l := TrimLeft(s);
    assert Trim(s) == l[..|Trim(s)|];
  }

  lemma TrimmedStays(s: string)
    requires s != "" && !IsSpace(s[0]) && !IsSpace(s[|s| - 1])
    ensures Trim(s) == s
  {
    assert TrimLeft(s) == s && TrimRight(s) == s;
  }

  lemma LowerConcat(a: string, b: string)
    ensures Lower(a + b) == Lower(a) + Lower(b)
  {
  }

  lemma {:induction false} StripConcat(a: string, b: string)
    ensures Strip(a + b) == Strip(a) + Strip(b)
  {
    hide Punctuation;
    if a == "" {
      assert a + b == b;
    } else {
      StripConcat(a[1..], b);
      assert (a + b)[1..] == a[1..] + b && (a + b)[0] == a[0];
      var first := if Punctuation(a[0]) then "" else [a[0]];
      assert first + (Strip(a[1..]) + Strip(b)) == first + Strip(a[1..]) + Strip(b);
    }
  }

  lemma {:induction false} StripDashes(n: nat)
    ensures Strip(Lower(Dashes(n))) == ""
  {
    if n > 0 {
      StripDashes(n - 1);
      assert Lower(Dashes(n))[1..] == Lower(Dashes(n - 1));
      assert Lower(Dashes(n))[0] == '-';
    }
  }

  /** In an inventory of one model, which can be found by the last name, that model is what is found first. */
  lemma {:induction false} OnlyModelIsFound(names: seq<string>, available: map<string, string>, id: string)
    requires names != [] && available == map[Lower(id) := id] && !Blank(id)
    requires !Blank(names[|names| - 1]) && Normal(id) == Normal(names[|names| - 1])
    ensures Inventory.Keyed(available) && FindsFirst(names, available, Some(id))
  {
    hide Lower, Normal, Blank;
    var i := 0;
    while i < |names| - 1 && !Finds(names[i], available, Some(id))
      invariant 0 <= i < |names|
      invariant forall j :: 0 <= j < i ==> Finds(names[j], available, None)
    {
      OneOrNone(names[i], available, id);
      i := i + 1;
    }
    if i == |names| - 1 {
      FoundByNormalForm(names[i], available, id);
    }
  }

  lemma OneOrNone(name: string, available: map<string, string>, id: string)
    requires available == map[Lower(id) := id]
    ensures Finds(name, available, None) || Finds(name, available, Some(id))
  {
    hide Lower, Normal;
    assert Lower(id) in available;
  }

  lemma FoundByNormalForm(name: string, available: map<string, string>, id: string)
    requires available == map[Lower(id) := id] && !Blank(name) && Normal(id) == Normal(name)
    ensures Finds(name, available, Some(id))
  {
    hide Lower, Normal;
    assert Matches(name, available, Lower(id));
    assert name != "";
  }

  /** For example, the model found for a default by its normal form alone. */
  lemma DefaultCanBePruned(r: Inventory.Router)
    requires r.defaultModel == "m:7"
    requires forall m :: m in [r.fallbackDefault] + r.idealModels && !Blank(m) ==> Lower(Trim(m)) != "m-7"
    requires r.available == map["m-7" := "m-7"]
    ensures Finds(r.defaultModel, r.available, Some("m-7")) && FindsFirst([r.defaultModel], r.available, Some("m-7"))
    ensures !r.Protected("m-7") && r.PruneOrder(["m-7"])
  {
    hide Lower, Trim, Blank, Normal;
    PlainNames();
    assert forall m :: m in [r.defaultModel, r.fallbackDefault] + r.idealModels ==>
                         m == "m:7" || m in [r.fallbackDefault] + r.idealModels;
    SameNormalForm();
    assert "m:7"[1] != "m-7"[1];
    assert Matches("m:7", r.available, "m-7");
    assert [r.defaultModel][0] == "m:7";
  }

  /** Or an alias: the default's own name is in the inventory, but an alias of it is found first. */
  lemma AliasCanBePruned(r: Inventory.Router, s: Settings)
    requires s.defaultModel == r.defaultModel == "m:7" && s.defaultAliases == ["q:7"]
    requires forall m :: m in [r.fallbackDefault] + r.idealModels && !Blank(m) ==> Lower(Trim(m)) != "q:7"
    requires r.available == map["m:7" := "m:7", "q:7" := "q:7"]
    ensures FindsFirst(s.defaultAliases + [s.defaultModel], r.available, Some("q:7"))
    ensures Lower(r.defaultModel) in r.available
    ensures !r.Protected("q:7") && r.PruneOrder(["q:7"])
  {
    hide Lower, Trim, Blank, Normal, Strip;
    PlainNames();
    assert "m:7"[0] != "q:7"[0];
    assert forall m :: m in [r.defaultModel, r.fallbackDefault] + r.idealModels ==>
                         m == "m:7" || m in [r.fallbackDefault] + r.idealModels;
    assert (s.defaultAliases + [s.defaultModel])[0] == "q:7";
    assert r.defaultModel in [r.defaultModel, r.fallbackDefault] + r.idealModels;
    assert r.Protected("m:7");
  }

  /** Three characters without capitals or spaces stay as they are. */
  lemma PlainName(s: string)
    requires |s| == 3 && forall i :: 0 <= i < 3 ==> !IsSpace(s[i]) && LowerChar(s[i]) == s[i]
    ensures Lower(s) == s && Trim(s) == s && !Blank(s)
  {
    assert TrimLeft(s) == s && TrimRight(s) == s;
  }

  lemma PlainNames()
    ensures Lower("m:7") == "m:7" && Trim("m:7") == "m:7" && !Blank("m:7")
    ensures Lower("m-7") == "m-7" && Trim("m-7") == "m-7" && !Blank("m-7")
    ensures Lower("q:7") == "q:7" && Trim("q:7") == "q:7" && !Blank("q:7")
  {
    hide Lower, Trim, Blank;
    PlainName("m:7");
    PlainName("m-7");
    PlainName("q:7");
  }

  lemma SameNormalForm()
    ensures Normal("m:7") == Normal("m-7")
  {
    hide Lower, Trim, Strip;
    PlainNames();
    StripTwice("m:7");
    StripTwice("m-7");
    assert "m:7"[2..] == "m-7"[2..];
  }

  lemma StripTwice(s: string)
    requires |s| == 3
    ensures Strip(s) == (if Punctuation(s[0]) then "" else [s[0]])
                        + ((if Punctuation(s[1]) then "" else [s[1]]) + Strip(s[2..]))
  {
    assert s[1..][1..] == s[2..];
  }
}
