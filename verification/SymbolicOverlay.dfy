/** The symbolic artifact of a request: sorted lists without repetitions, cut to a budget of symbols. */
module SymbolicOverlay {
  import opened Options
  import opened Canonical
  import opened Text

  datatype Type = LogicMap | ConstraintSet | RiskLens

  /** What is read from one source text, in any order and with repetitions. A constraint's keywords and a
      signal's evidence follow from its key. */
  datatype Reader = Reader(
    entities: string -> seq<Key>, links: string -> seq<Key>,
    constraints: string -> seq<Key>, risks: string -> seq<Key>)

  // ----- Options

  function TypeNamed(name: string): Option<Type> {
    var t := Lower(Trim(name));
    if t == "logic_map" then Some(LogicMap)
    else if t == "constraint_set" then Some(ConstraintSet)
    else if t == "risk_lens" then Some(RiskLens)
    else None
  }

  ghost predicate DistinctTypes(types: seq<Type>) {
    forall i, j :: 0 <= i < j < |types| ==> types[i] != types[j]
  }

  /** The requested types without repetitions, all of them when none is requested, or an error. */
  method NormalizeTypes(raw: seq<string>) returns (types: Option<seq<Type>>)
    ensures types.Some? ==> types.value != [] && DistinctTypes(types.value)
    ensures types.Some? && raw == [] ==> forall t: Type :: t in types.value
    ensures types.Some? && raw != [] ==>
              forall t: Type :: t in types.value <==> exists i :: 0 <= i < |raw| && TypeNamed(raw[i]) == Some(t)
    ensures types.None? <==>
              raw != [] && ((exists i :: 0 <= i < |raw| && !Blank(raw[i]) && TypeNamed(raw[i]) == None)
                            || (forall i :: 0 <= i < |raw| ==> Blank(raw[i])))
  {
    hide Trim, Lower;
    if |raw| == 0 {
      assert forall t: Type :: t in [LogicMap, ConstraintSet, RiskLens] by {
        forall t: Type ensures t in [LogicMap, ConstraintSet, RiskLens] {
          assert [LogicMap, ConstraintSet, RiskLens][if t.LogicMap? then 0 else if t.ConstraintSet? then 1 else 2] == t;
        }
      }
      return Some([LogicMap, ConstraintSet, RiskLens]);
    }
    var seen: set<Type> := {};
    var out: seq<Type> := [];
    for i := 0 to |raw|
      invariant DistinctTypes(out) && forall t :: t in seen <==> t in out
      invariant forall j :: 0 <= j < i ==> Blank(raw[j]) || TypeNamed(raw[j]).Some?
      invariant forall j :: 0 <= j < i && TypeNamed(raw[j]).Some? ==> TypeNamed(raw[j]).value in out
      invariant forall t :: t in out ==> exists j :: 0 <= j < i && TypeNamed(raw[j]) == Some(t)
    {
      if Blank(raw[i]) {
        BlankNamesNothing(raw[i]);
        continue;
      }
      var t := TypeNamed(raw[i]);
      if t.None? {
        return None;
      }
      if t.value !in seen {
        seen := seen + {t.value};
        out := out + [t.value];
      }
    }
    if |out| == 0 {
      return None;
    }
    types := Some(out);
    var j :| 0 <= j < |raw| && TypeNamed(raw[j]) == Some(out[0]);
    BlankNamesNothing(raw[j]);
  }

  /** The names, whatever their case and the space around them. */
  lemma TypeNames(name: string)
    ensures Lower(Trim(name)) == "logic_map" <==> TypeNamed(name) == Some(LogicMap)
    ensures Lower(Trim(name)) == "constraint_set" <==> TypeNamed(name) == Some(ConstraintSet)
    ensures Lower(Trim(name)) == "risk_lens" <==> TypeNamed(name) == Some(RiskLens)
  {
    hide Lower, Trim;
  }

  lemma BlankNamesNothing(name: string)
    ensures Blank(name) ==> TypeNamed(name) == None
  {
    hide Trim;
  }

  /** The cap on symbols: positive, and never above a positive configured one. */
  method ResolveMaxSymbols(configured: int, requested: nat) returns (max: nat)
    ensures max >= 1
    ensures configured > 0 ==> max == if 0 < requested < configured then requested else configured
    ensures configured <= 0 ==> max == if requested > 0 then requested else 48
  {
    var n := configured;
    if requested > 0 {
      n := requested;
    }
    if n <= 0 {
      n := 48;
    }
    if n > configured && configured > 0 {
      n := configured;
    }
    max := n;
  }

  // ----- Reading all sources

  ghost function AllOf(read: string -> seq<Key>, sources: seq<string>): seq<Key> {
    if sources == [] then [] else AllOf(read, sources[..|sources| - 1]) + read(sources[|sources| - 1])
  }

  lemma {:induction false} AllOfMembers(read: string -> seq<Key>, sources: seq<string>, k: Key)
    ensures k in AllOf(read, sources) <==> exists i :: 0 <= i < |sources| && k in read(sources[i])
  {
    if sources != [] {
      var n := |sources| - 1;
      AllOfMembers(read, sources[..n], k);
      if k in AllOf(read, sources[..n]) {
        var i :| 0 <= i < n && k in read(sources[..n][i]);
        assert k in read(sources[i]);
      }
      if exists i :: 0 <= i < n && k in read(sources[i]) {
        var i :| 0 <= i < n && k in read(sources[i]);
        assert k in read(sources[..n][i]);
      }
    }
  }

  /** Gather what `read` finds, then sort and drop repetitions. */
  method Extract(read: string -> seq<Key>, sources: seq<string>) returns (list: seq<Key>)
    ensures list == ListOf(AllOf(read, sources))
  {
    var all: seq<Key> := [];
    assert AllOf(read, sources[..0]) == [];
    hide *;
    for i := 0 to |sources|
      invariant all == AllOf(read, sources[..i])
    {
      OneMoreSource(read, sources, i);
      all := all + read(sources[i]);
    }
    assert sources[..|sources|] == sources;
    list := SortDistinct(all);
  }

  lemma OneMoreSource(read: string -> seq<Key>, sources: seq<string>, i: nat)
    requires i < |sources|
    ensures AllOf(read, sources[..i + 1]) == AllOf(read, sources[..i]) + read(sources[i])
  {
    assert sources[..i + 1][..i] == sources[..i];
  }

  // ----- Sections cut to what is left of the budget

  datatype Artifact = Artifact(entities: seq<Key>, links: seq<Key>, constraints: seq<Key>, risks: seq<Key>) {
    function Size(): nat {
      |entities| + |links| + |constraints| + |risks|
    }
  }

  const EMPTY := Artifact([], [], [], [])

  function Cut(list: seq<Key>, max: nat): (r: seq<Key>)
    ensures r <= list && |r| <= max
    ensures |list| <= max ==> r == list
    ensures |list| > max ==> |r| == max
  {
    if |list| > max then list[..max] else list
  }

  /** The artifact with section `t` filled from the complete lists `full`, at most `max` symbols; the links get
      what the entities leave. */
  function Fill(a: Artifact, t: Type, full: Artifact, max: nat): Artifact {
    match t
    case LogicMap =>
      var entities := Cut(full.entities, max);
      a.(entities := entities, links := Cut(full.links, max - |entities|))
    case ConstraintSet => a.(constraints := Cut(full.constraints, max))
    case RiskLens => a.(risks := Cut(full.risks, max))
  }

  /** The symbols section `t` of an artifact holds. */
  function Used(a: Artifact, t: Type): nat {
    match t
    case LogicMap => |a.entities| + |a.links|
    case ConstraintSet => |a.constraints|
    case RiskLens => |a.risks|
  }

  /** The sections of `types` in order, each within what the earlier ones left. */
  function Build(a: Artifact, types: seq<Type>, full: Artifact, left: nat): (Artifact, nat)
    decreases |types|
  {
    if types == [] || left == 0 then (a, left)
    else
      var b := Fill(a, types[0], full, left);
      FillFits(a, types[0], full, left);
      Build(b, types[1..], full, left - Used(b, types[0]))
  }

  lemma FillFits(a: Artifact, t: Type, full: Artifact, max: nat)
    ensures Used(Fill(a, t, full, max), t) <= max
  {
    hide Cut;
  }

  function Least(a: nat, b: nat): nat {
    if a < b then a else b
  }

  /** A section takes what it has, or what is left. */
  lemma FillTakes(a: Artifact, t: Type, full: Artifact, max: nat)
    ensures Used(Fill(a, t, full, max), t) == Least(Used(full, t), max)
  {
    hide Cut;
  }

  function TruncatedFlag(t: Type): Key {
    match t
    case LogicMap => ["logic_map_truncated"]
    case ConstraintSet => ["constraint_set_truncated"]
    case RiskLens => ["risk_lens_truncated"]
  }

  /** The flags raised on the way, in order. */
  function FlagsOf(types: seq<Type>, full: Artifact, left: nat): seq<Key> {
    if types == [] then []
    else if left == 0 then [["max_symbols_reached"]]
    else
      (if Used(full, types[0]) > left then [TruncatedFlag(types[0])] else [])
      + FlagsOf(types[1..], full, left - Least(Used(full, types[0]), left))
  }

  /** What the four lists are without a budget. */
  ghost function FullOf(reader: Reader, sources: seq<string>): Artifact {
    Artifact(ListOf(AllOf(reader.entities, sources)), ListOf(AllOf(reader.links, sources)),
             ListOf(AllOf(reader.constraints, sources)), ListOf(AllOf(reader.risks, sources)))
  }

  method FillSection(a: Artifact, t: Type, reader: Reader, sources: seq<string>, max: nat)
    returns (b: Artifact, used: nat, truncated: bool)
    ensures b == Fill(a, t, FullOf(reader, sources), max) && used == Used(b, t)
    ensures truncated <==> Used(FullOf(reader, sources), t) > max
  {
    hide ListOf, AllOf, Cut;
    match t {
      case LogicMap =>
        var entities := Extract(reader.entities, sources);
        var links := Extract(reader.links, sources);
        truncated := |entities| > max || |links| > max - |entities|;
        entities := Cut(entities, max);
        b := a.(entities := entities, links := Cut(links, max - |entities|));
      case ConstraintSet =>
        var items := Extract(reader.constraints, sources);
        truncated := |items| > max;
        b := a.(constraints := Cut(items, max));
      case RiskLens =>
        var signals := Extract(reader.risks, sources);
        truncated := |signals| > max;
        b := a.(risks := Cut(signals, max));
    }
    used := Used(b, t);
  }

  /** `buildArtifact` over the given sources. */
  method BuildArtifact(types: seq<Type>, reader: Reader, sources: seq<string>, maxSymbols: nat)
    returns (a: Artifact, flags: seq<Key>, used: nat)
    ensures used <= maxSymbols
    ensures (a, maxSymbols - used) == Build(EMPTY, types, FullOf(reader, sources), maxSymbols)
    ensures flags == FirstSeen(FlagsOf(types, FullOf(reader, sources), maxSymbols))
    ensures DistinctTypes(types) ==>
              && Listing(a, types) == Cut(Listing(FullOf(reader, sources), types), maxSymbols)
              && (a.links != [] ==> a.entities == ListOf(AllOf(reader.entities, sources)))
  {
    hide *;
    ghost var full := FullOf(reader, sources);
    a := EMPTY;
    flags := [];
    var remaining: nat := maxSymbols;
    var i := 0;
    assert types[0..] == types;
    while i < |types|
      invariant 0 <= i <= |types| && remaining <= maxSymbols
      invariant Build(a, types[i..], full, remaining) == Build(EMPTY, types, full, maxSymbols)
      invariant flags + FlagsOf(types[i..], full, remaining) == FlagsOf(types, full, maxSymbols)
    {
      FlagsStep(types, i, full, remaining);
      if remaining == 0 {
        flags := flags + [["max_symbols_reached"]];
        break;
      }
      BuildStep(a, types, i, full, remaining);
      FillTakes(a, types[i], full, remaining);
      var b, taken, truncated := FillSection(a, types[i], reader, sources, remaining);
      ghost var before := flags;
      if truncated {
        flags := flags + [TruncatedFlag(types[i])];
      }
      assert flags == before + if truncated then [TruncatedFlag(types[i])] else [];
      a, remaining, i := b, remaining - taken, i + 1;
    }
    FlagsEnd(types, full, remaining);
    assert flags + [] == flags;
    BuildEnd(a, types[i..], full, remaining);
    flags := Dedupe(flags);
    used := maxSymbols - remaining;
    BuiltAsOneList(types, reader, sources, maxSymbols);
  }

  lemma BuiltAsOneList(types: seq<Type>, reader: Reader, sources: seq<string>, maxSymbols: nat)
    ensures var full := FullOf(reader, sources);
            var a := Build(EMPTY, types, full, maxSymbols).0;
            DistinctTypes(types) ==>
              && Listing(a, types) == Cut(Listing(full, types), maxSymbols)
              && (a.links != [] ==> a.entities == ListOf(AllOf(reader.entities, sources)))
  {
    hide Build, Cut, ListOf, AllOf, DistinctTypes;
    if DistinctTypes(types) {
      assert forall t: Type :: Used(EMPTY, t) == 0;
      CutAsOneList(EMPTY, types, FullOf(reader, sources), maxSymbols);
      LinksNeedEntities(EMPTY, types, FullOf(reader, sources), maxSymbols);
    }
  }

  lemma FlagsStep(types: seq<Type>, i: nat, full: Artifact, left: nat)
    requires i < |types|
    ensures left == 0 ==> FlagsOf(types[i..], full, left) == [["max_symbols_reached"]]
    ensures left > 0 ==>
              FlagsOf(types[i..], full, left)
              == (if Used(full, types[i]) > left then [TruncatedFlag(types[i])] else [])
                 + FlagsOf(types[i + 1..], full, left - Least(Used(full, types[i]), left))
  {
    hide Used, TruncatedFlag;
    assert types[i..][1..] == types[i + 1..];
  }

  lemma FlagsEnd(types: seq<Type>, full: Artifact, left: nat)
    ensures FlagsOf(types[|types|..], full, left) == []
  {
  }

  lemma BuildStep(a: Artifact, types: seq<Type>, i: nat, full: Artifact, left: nat)
    requires i < |types| && left > 0
    ensures var b := Fill(a, types[i], full, left);
            Used(b, types[i]) <= left
            && Build(a, types[i..], full, left) == Build(b, types[i + 1..], full, left - Used(b, types[i]))
  {
    hide Fill, Used;
    FillFits(a, types[i], full, left);
    assert types[i..][1..] == types[i + 1..];
  }

  lemma BuildEnd(a: Artifact, types: seq<Type>, full: Artifact, left: nat)
    requires types == [] || left == 0
    ensures Build(a, types, full, left) == (a, left)
  {
  }

  // ----- The count of symbols

  ghost predicate Unfilled(a: Artifact, types: seq<Type>) {
    forall i :: 0 <= i < |types| ==> Used(a, types[i]) == 0
  }

  lemma FillCounts(a: Artifact, t: Type, full: Artifact, max: nat, rest: seq<Type>)
    requires Used(a, t) == 0 && t !in rest && Unfilled(a, rest)
    ensures var b := Fill(a, t, full, max);
            b.Size() == a.Size() + Used(b, t) && Unfilled(b, rest)
  {
    hide Cut;
    var b := Fill(a, t, full, max);
    assert forall u: Type :: u != t ==> Used(b, u) == Used(a, u);
  }

  /** When no type is repeated, the budget used up is the number of symbols in the artifact. */
  lemma {:induction false} CountIsSize(a: Artifact, types: seq<Type>, full: Artifact, left: nat)
    requires DistinctTypes(types) && Unfilled(a, types)
    ensures var (b, rest) := Build(a, types, full, left);
            rest <= left && b.Size() == a.Size() + (left - rest)
    decreases |types|
  {
    hide Fill, Used;
    if types != [] && left != 0 {
      var t := types[0];
      var b := Fill(a, t, full, left);
      FillFits(a, t, full, left);
      assert Used(a, t) == 0;
      assert forall i :: 0 <= i < |types[1..]| ==> types[1..][i] == types[i + 1];
      FillCounts(a, t, full, left, types[1..]);
      CountIsSize(b, types[1..], full, left - Used(b, t));
    }
  }

  /** For the types an accepted request has: the reported count is exact and within the cap. */
  lemma ReportedCount(types: seq<Type>, full: Artifact, maxSymbols: nat, a: Artifact, used: nat)
    requires DistinctTypes(types) && used <= maxSymbols
    requires (a, maxSymbols - used) == Build(EMPTY, types, full, maxSymbols)
    ensures a.Size() == used <= maxSymbols
  {
    hide Build;
    assert forall t: Type :: Used(EMPTY, t) == 0;
    CountIsSize(EMPTY, types, full, maxSymbols);
  }

  // ----- The flags

  /** How many symbols the complete sections of some types have. */
  function Wanted(types: seq<Type>, full: Artifact): nat {
    if types == [] then 0 else Used(full, types[0]) + Wanted(types[1..], full)
  }

  /** The cap falls inside section `i`: something of it is left, but not all. */
  predicate CapInside(types: seq<Type>, full: Artifact, cap: nat, i: nat)
    requires i < |types|
  {
    Wanted(types[..i], full) < cap < Wanted(types[..i + 1], full)
  }

  /** The sections before section `i` use up the cap. */
  predicate CapBefore(types: seq<Type>, full: Artifact, cap: nat, i: nat)
    requires i < |types|
  {
    Wanted(types[..i], full) >= cap
  }

  lemma OneSectionOn(types: seq<Type>, full: Artifact, cap: nat, i: nat)
    requires i + 1 < |types|
    ensures var rest := cap - Least(Used(full, types[0]), cap);
            && (CapInside(types, full, cap, i + 1) <==> CapInside(types[1..], full, rest, i))
            && (cap > 0 ==> (CapBefore(types, full, cap, i + 1) <==> CapBefore(types[1..], full, rest, i)))
  {
    hide Used;
    assert types[..i + 1][1..] == types[1..][..i] && types[..i + 2][1..] == types[1..][..i + 1];
  }

  lemma FirstSection(types: seq<Type>, full: Artifact, cap: nat)
    requires types != []
    ensures CapInside(types, full, cap, 0) <==> 0 < cap < Used(full, types[0])
    ensures CapBefore(types, full, cap, 0) <==> cap == 0
  {
    hide Used;
    assert types[..0] == [] && types[..1][1..] == [];
  }

  lemma FlagNames(t: Type)
    ensures TruncatedFlag(t) == [match t case LogicMap => "logic_map_truncated"
                                       case ConstraintSet => "constraint_set_truncated"
                                       case RiskLens => "risk_lens_truncated"]
    ensures TruncatedFlag(t) != ["max_symbols_reached"]
    ensures forall u :: TruncatedFlag(u) == TruncatedFlag(t) ==> u == t
  {
    assert forall u :: TruncatedFlag(u)[0][0] ==
                       match u case LogicMap => 'l' case ConstraintSet => 'c' case RiskLens => 'r';
    assert ["max_symbols_reached"][0][0] == 'm';
  }

  /** A section is flagged as truncated exactly when the cap falls inside it, and the cap is reported as reached
      exactly when the sections before some other use it up. */
  lemma {:induction false} FlagsExactly(types: seq<Type>, full: Artifact, cap: nat, t: Type)
    ensures [match t case LogicMap => "logic_map_truncated"
                     case ConstraintSet => "constraint_set_truncated"
                     case RiskLens => "risk_lens_truncated"] in FlagsOf(types, full, cap)
            <==> exists i: nat :: i < |types| && types[i] == t && CapInside(types, full, cap, i)
    ensures ["max_symbols_reached"] in FlagsOf(types, full, cap)
            <==> exists i: nat :: i < |types| && CapBefore(types, full, cap, i)
    decreases |types|
  {
    FlagNames(t);
    FlagsCases(types, full, cap);
    hide *;
    if types != [] {
      var rest := cap - Least(Used(full, types[0]), cap);
      FlagNames(types[0]);
      FirstSection(types, full, cap);
      InsideStep(types, full, cap, t);
      BeforeStep(types, full, cap);
      if cap > 0 {
        FlagsExactly(types[1..], full, rest, t);
      } else {
        assert CapBefore(types, full, cap, 0);
        NothingInside(types, full);
      }
    }
  }

  lemma NothingInside(types: seq<Type>, full: Artifact)
    ensures forall i: nat :: i < |types| ==> !CapInside(types, full, 0, i)
  {
  }

  lemma FlagsCases(types: seq<Type>, full: Artifact, cap: nat)
    ensures types == [] ==> FlagsOf(types, full, cap) == []
    ensures types != [] && cap == 0 ==> FlagsOf(types, full, cap) == [["max_symbols_reached"]]
    ensures types != [] && cap > 0 ==>
              var later := FlagsOf(types[1..], full, cap - Least(Used(full, types[0]), cap));
              FlagsOf(types, full, cap)
              == if Used(full, types[0]) > cap then [TruncatedFlag(types[0])] + later else later
    ensures types != [] ==> Least(Used(full, types[0]), cap) <= cap
  {
    hide Used, TruncatedFlag;
  }

  lemma InsideStep(types: seq<Type>, full: Artifact, cap: nat, t: Type)
    requires types != []
    ensures var rest := cap - Least(Used(full, types[0]), cap);
            (exists i: nat :: i < |types| && types[i] == t && CapInside(types, full, cap, i))
            <==> (types[0] == t && CapInside(types, full, cap, 0))
                 || exists i: nat :: i < |types[1..]| && types[1..][i] == t && CapInside(types[1..], full, rest, i)
  {
    hide CapInside, Used;
    var rest := cap - Least(Used(full, types[0]), cap);
    if i: nat :| i < |types| && types[i] == t && CapInside(types, full, cap, i) && i > 0 {
      OneSectionOn(types, full, cap, i - 1);
      assert types[1..][i - 1] == t && CapInside(types[1..], full, rest, i - 1);
    }
    if i: nat :| i < |types[1..]| && types[1..][i] == t && CapInside(types[1..], full, rest, i) {
      OneSectionOn(types, full, cap, i);
      assert types[i + 1] == t && CapInside(types, full, cap, i + 1);
    }
  }

  lemma BeforeStep(types: seq<Type>, full: Artifact, cap: nat)
    requires types != []
    ensures var rest := cap - Least(Used(full, types[0]), cap);
            cap > 0 ==>
              ((exists i: nat :: i < |types| && CapBefore(types, full, cap, i))
               <==> exists i: nat :: i < |types[1..]| && CapBefore(types[1..], full, rest, i))
  {
    hide CapBefore, Used;
    var rest := cap - Least(Used(full, types[0]), cap);
    FirstSection(types, full, cap);
    if cap > 0 {
      if i: nat :| i < |types| && CapBefore(types, full, cap, i) {
        OneSectionOn(types, full, cap, i - 1);
        assert CapBefore(types[1..], full, rest, i - 1);
      }
      if i: nat :| i < |types[1..]| && CapBefore(types[1..], full, rest, i) {
        OneSectionOn(types, full, cap, i);
        assert CapBefore(types, full, cap, i + 1);
      }
    }
  }

  /** No flag is raised exactly when the cap has room for all sections, and some left for the last one. */
  lemma {:induction false} UnflaggedExactly(types: seq<Type>, full: Artifact, left: nat)
    requires types != []
    ensures FlagsOf(types, full, left) == []
        <==> Wanted(types, full) <= left && Wanted(types[..|types| - 1], full) < left
    decreases |types|
  {
    hide Used, TruncatedFlag;
    var init := types[..|types| - 1];
    if |types| == 1 {
      assert types[1..] == [] && init == [];
    } else {
      assert init[0] == types[0] && init[1..] == types[1..][..|types| - 2];
      if left > 0 {
        UnflaggedExactly(types[1..], full, left - Least(Used(full, types[0]), left));
      }
    }
  }

  /** Without a flag every requested section is complete. */
  lemma {:induction false} UnflaggedIsComplete(a: Artifact, types: seq<Type>, full: Artifact, left: nat, t: Type)
    requires DistinctTypes(types) && FlagsOf(types, full, left) == []
    ensures t in types ==> SameSection(Build(a, types, full, left).0, full, t)
    ensures t !in types ==> SameSection(Build(a, types, full, left).0, a, t)
    decreases |types|
  {
    hide Cut, TruncatedFlag;
    if types != [] {
      var u, b := types[0], Fill(a, types[0], full, left);
      FillTakes(a, u, full, left);
      assert forall i :: 0 <= i < |types[1..]| ==> types[1..][i] == types[i + 1];
      UnflaggedIsComplete(b, types[1..], full, left - Used(b, u), t);
    }
  }

  predicate SameSection(a: Artifact, b: Artifact, t: Type) {
    match t
    case LogicMap => a.entities == b.entities && a.links == b.links
    case ConstraintSet => a.constraints == b.constraints
    case RiskLens => a.risks == b.risks
  }

  // ----- What is cut

  /** The symbols of one section in order: in a logic map, entities before links. */
  function Section(a: Artifact, t: Type): seq<Key> {
    match t
    case LogicMap => a.entities + a.links
    case ConstraintSet => a.constraints
    case RiskLens => a.risks
  }

  /** The symbols of some sections, one section after the other. */
  function Listing(a: Artifact, types: seq<Type>): seq<Key> {
    if types == [] then [] else Section(a, types[0]) + Listing(a, types[1..])
  }

  lemma CutConcat(a: seq<Key>, b: seq<Key>, max: nat)
    ensures |Cut(a, max)| <= max
    ensures Cut(a + b, max) == Cut(a, max) + Cut(b, max - |Cut(a, max)|)
  {
  }

  lemma FillCuts(a: Artifact, t: Type, full: Artifact, max: nat)
    ensures Section(Fill(a, t, full, max), t) == Cut(Section(full, t), max)
    ensures |Cut(Section(full, t), max)| == Used(Fill(a, t, full, max), t)
    ensures forall u: Type :: u != t ==> Section(Fill(a, t, full, max), u) == Section(a, u)
    ensures Fill(a, t, full, max).links != [] && t == LogicMap ==> Fill(a, t, full, max).entities == full.entities
  {
    CutConcat(full.entities, full.links, max);
    hide Cut;
  }

  /** Sections that are not asked for stay as they are. */
  lemma {:induction false} BuildKeepsOthers(a: Artifact, types: seq<Type>, full: Artifact, left: nat, t: Type)
    requires t !in types
    ensures Section(Build(a, types, full, left).0, t) == Section(a, t)
    ensures t == LogicMap ==>
              Build(a, types, full, left).0.entities == a.entities && Build(a, types, full, left).0.links == a.links
    decreases |types|
  {
    hide Cut;
    if types != [] && left != 0 {
      var b := Fill(a, types[0], full, left);
      FillFits(a, types[0], full, left);
      BuildKeepsOthers(b, types[1..], full, left - Used(b, types[0]), t);
    }
  }

  lemma {:induction false} SameListing(a: Artifact, b: Artifact, types: seq<Type>)
    requires forall i :: 0 <= i < |types| ==> Section(a, types[i]) == Section(b, types[i])
    ensures Listing(a, types) == Listing(b, types)
  {
    hide Section;
    if types != [] {
      SameListing(a, b, types[1..]);
    }
  }

  lemma {:induction false} NothingListed(a: Artifact, types: seq<Type>)
    requires Unfilled(a, types)
    ensures Listing(a, types) == []
  {
    if types != [] {
      assert Used(a, types[0]) == 0;
      assert forall i :: 0 <= i < |types[1..]| ==> types[1..][i] == types[i + 1];
      NothingListed(a, types[1..]);
    }
  }

  lemma UnfilledRest(a: Artifact, types: seq<Type>, full: Artifact, left: nat)
    requires types != [] && DistinctTypes(types) && Unfilled(a, types)
    ensures types[0] !in types[1..] && DistinctTypes(types[1..]) && Unfilled(Fill(a, types[0], full, left), types[1..])
  {
    hide Cut, Used;
    assert forall i :: 0 <= i < |types[1..]| ==> types[1..][i] == types[i + 1];
    assert Used(a, types[0]) == 0;
    FillCounts(a, types[0], full, left, types[1..]);
  }

  /** The budget cuts the requested sections as if they were one list: everything up to the cap is kept, in the
      order of the types with entities before links, and nothing after it. */
  lemma {:induction false} CutAsOneList(a: Artifact, types: seq<Type>, full: Artifact, left: nat)
    requires DistinctTypes(types) && Unfilled(a, types)
    ensures Listing(Build(a, types, full, left).0, types) == Cut(Listing(full, types), left)
    decreases |types|
  {
    hide Section, Used, Fill, Cut;
    if types == [] {
    } else if left == 0 {
      NothingListed(a, types);
    } else {
      var t, b := types[0], Fill(a, types[0], full, left);
      var rest := left - Used(b, t);
      FillFits(a, t, full, left);
      FillCuts(a, t, full, left);
      UnfilledRest(a, types, full, left);
      CutAsOneList(b, types[1..], full, rest);
      BuildKeepsOthers(b, types[1..], full, rest, t);
      CutConcat(Section(full, t), Listing(full, types[1..]), left);
    }
  }

  /** If a section is incomplete, every later one is empty. */
  lemma {:induction false} IncompleteThenEmpty(a: Artifact, types: seq<Type>, full: Artifact, left: nat, i: nat, j: nat)
    requires DistinctTypes(types) && Unfilled(a, types) && i < j < |types|
    requires Section(Build(a, types, full, left).0, types[i]) != Section(full, types[i])
    ensures Section(Build(a, types, full, left).0, types[j]) == []
    decreases |types|
  {
    hide Fill, Cut;
    if left == 0 {
      assert Used(a, types[j]) == 0;
    } else {
      var t, b := types[0], Fill(a, types[0], full, left);
      var rest := left - Used(b, t);
      FillFits(a, t, full, left);
      FillCuts(a, t, full, left);
      UnfilledRest(a, types, full, left);
      if i > 0 {
        IncompleteThenEmpty(b, types[1..], full, rest, i - 1, j - 1);
      } else {
        BuildKeepsOthers(b, types[1..], full, rest, t);
        assert Used(b, types[1..][j - 1]) == 0;
      }
    }
  }

  /** A logic map has a link only if it has all entities. */
  lemma {:induction false} LinksNeedEntities(a: Artifact, types: seq<Type>, full: Artifact, left: nat)
    requires DistinctTypes(types) && (a.links != [] ==> a.entities == full.entities)
    ensures var b := Build(a, types, full, left).0;
            b.links != [] ==> b.entities == full.entities
    decreases |types|
  {
    hide Cut;
    if types != [] && left != 0 {
      var b := Fill(a, types[0], full, left);
      FillFits(a, types[0], full, left);
      FillCuts(a, types[0], full, left);
      assert forall i :: 0 <= i < |types[1..]| ==> types[1..][i] == types[i + 1];
      LinksNeedEntities(b, types[1..], full, left - Used(b, types[0]));
    }
  }

  // ----- The lists of the artifact

  /** Every section is a front part of its complete list. */
  predicate Fronts(a: Artifact, full: Artifact) {
    a.entities <= full.entities && a.links <= full.links && a.constraints <= full.constraints && a.risks <= full.risks
  }

  lemma {:induction false} SectionsAreFronts(a: Artifact, types: seq<Type>, full: Artifact, left: nat)
    requires Fronts(a, full)
    ensures Fronts(Build(a, types, full, left).0, full)
    decreases |types|
  {
    hide Cut;
    if types != [] && left != 0 {
      var b := Fill(a, types[0], full, left);
      FillFits(a, types[0], full, left);
      SectionsAreFronts(b, types[1..], full, left - Used(b, types[0]));
    }
  }

  /** Every list of the artifact is strictly increasing, so it repeats nothing. */
  lemma SectionsAscend(reader: Reader, sources: seq<string>, types: seq<Type>, maxSymbols: nat)
    ensures var a := Build(EMPTY, types, FullOf(reader, sources), maxSymbols).0;
            Ascending(a.entities) && Ascending(a.links) && Ascending(a.constraints) && Ascending(a.risks)
  {
    hide Build, ListOf, AllOf, Less, SameKeys;
    SectionsAreFronts(EMPTY, types, FullOf(reader, sources), maxSymbols);
    ListOfLists(AllOf(reader.entities, sources));
    ListOfLists(AllOf(reader.links, sources));
    ListOfLists(AllOf(reader.constraints, sources));
    ListOfLists(AllOf(reader.risks, sources));
  }

  // ----- The artifact is canonical

  ghost predicate SameReading(read: string -> seq<Key>, read': string -> seq<Key>) {
    forall text: string, k: Key :: k in read(text) <==> k in read'(text)
  }

  ghost predicate SameSources(sources: seq<string>, sources': seq<string>) {
    forall s: string :: s in sources <==> s in sources'
  }

  lemma SameAll(read: string -> seq<Key>, sources: seq<string>, read': string -> seq<Key>, sources': seq<string>)
    requires SameReading(read, read') && SameSources(sources, sources')
    ensures ListOf(AllOf(read, sources)) == ListOf(AllOf(read', sources'))
  {
    hide ListOf, AllOf, Less, Ascending;
    var items, items' := AllOf(read, sources), AllOf(read', sources');
    forall k: Key ensures k in items <==> k in items' {
      AllOfMembers(read, sources, k);
      AllOfMembers(read', sources', k);
      if k in items {
        var i :| 0 <= i < |sources| && k in read(sources[i]);
        assert sources[i] in sources';
      }
      if k in items' {
        var i :| 0 <= i < |sources'| && k in read'(sources'[i]);
        assert sources'[i] in sources;
      }
    }
    ListOfLists(items);
    ListOfLists(items');
    ListIsCanonical(ListOf(items), items, ListOf(items'), items');
  }

  /** The artifact depends only on the set of source texts and on the sets of keys read from each: not on
      the order or repetition of the texts, nor on the order in which a text yields its keys. */
  lemma ArtifactIsCanonical(reader: Reader, sources: seq<string>, reader': Reader, sources': seq<string>,
                            types: seq<Type>, maxSymbols: nat)
    requires SameSources(sources, sources')
    requires SameReading(reader.entities, reader'.entities) && SameReading(reader.links, reader'.links)
    requires SameReading(reader.constraints, reader'.constraints) && SameReading(reader.risks, reader'.risks)
    ensures Build(EMPTY, types, FullOf(reader, sources), maxSymbols)
         == Build(EMPTY, types, FullOf(reader', sources'), maxSymbols)
  {
    hide Build, ListOf, AllOf, SameReading, SameSources;
    SameAll(reader.entities, sources, reader'.entities, sources');
    SameAll(reader.links, sources, reader'.links, sources');
    SameAll(reader.constraints, sources, reader'.constraints, sources');
    SameAll(reader.risks, sources, reader'.risks, sources');
  }

  /** With a repeated type the count no longer matches: the second filling replaces the first one. */
  lemma RepeatedTypeMiscounts(full: Artifact, k: Key)
    requires full == Artifact([], [], [k], [])
    ensures Build(EMPTY, [ConstraintSet, ConstraintSet], full, 2) == (Artifact([], [], [k], []), 0)
  {
    var types := [ConstraintSet, ConstraintSet];
    assert Fill(EMPTY, ConstraintSet, full, 2) == full;
    assert types[1..] == [ConstraintSet];
    assert Fill(full, ConstraintSet, full, 1) == full;
    assert Build(full, [ConstraintSet], full, 1) == (full, 0) by {
      assert [ConstraintSet][1..] == [];
    }
  }
}
