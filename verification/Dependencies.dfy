/** load_deps: libraries loaded depth first through their DT_NEEDED names, each into a slot of its own. */
module Dependencies {
  import opened Prelude

  const SO_LOAD_BASE: nat := 0x8000_0000
  const SO_SLOT_SIZE: nat := 0x0100_0000
  const INTERP_LOAD_BASE: nat := 0xC000_0000

  type Name = string

  /** What the provider finds under a name: a file that load_so_at accepts or refuses, and its DT_NEEDED names. */
  datatype Image = Image(loads: bool, needed: seq<Name>)

  type Provider = map<Name, Image>

  datatype Lib = Lib(name: Name, base: nat, needed: seq<Name>)

  datatype Linker = Linker(libs: seq<Lib>, nextSlot: nat)

  /** The part of a name after its last slash. */
  function BaseName(name: Name): (only: Name)
    ensures '/' !in only
    ensures '/' !in name ==> only == name
  {
    if name == [] then [] else
    var init := BaseName(name[..|name| - 1]);
    if name[|name| - 1] == '/' then [] else init + [name[|name| - 1]]
  }

  /** It is the name itself, or what follows its last slash. */
  lemma {:induction false} BaseNameIsSuffix(name: Name) returns (k: nat)
    ensures k <= |name| && name[k..] == BaseName(name) && '/' !in name[k..]
    ensures if '/' in name then k > 0 && name[k - 1] == '/' else k == 0
  {
    if name == [] {
      k := 0;
    } else {
      var n := |name| - 1;
      k := BaseNameIsSuffix(name[..n]);
      assert name == name[..n] + [name[n]];
      if name[n] == '/' { k := n + 1; } else { assert name[k..] == name[..n][k..] + [name[n]]; }
    }
  }

  function Names(libs: seq<Lib>): set<Name> { set l | l in libs :: l.name }

  /** A library accepted under name `only`, in the next slot. */
  function Push(p: Provider, only: Name, st: Linker): Linker
    requires only in p
  {
    Linker(st.libs + [Lib(only, st.nextSlot, p[only].needed)], st.nextSlot + SO_SLOT_SIZE)
  }

  /** One name of the list; `depth` bounds the nesting of calls, None when it is exceeded. */
  function LoadOne(p: Provider, dep: Name, st: Linker, depth: nat): Option<Linker>
    decreases depth, 0, 0
  {
    var only := BaseName(dep);
    if dep in Names(st.libs) || only !in p then Some(st)
    else if !p[only].loads then Some(st.(nextSlot := st.nextSlot + SO_SLOT_SIZE))
    else if depth == 0 then None
    else LoadDeps(p, p[only].needed, Push(p, only, st), depth - 1)
  }

  function LoadDeps(p: Provider, needed: seq<Name>, st: Linker, depth: nat): Option<Linker>
    decreases depth, 1, |needed|
  {
    if needed == [] then Some(st)
    else match LoadOne(p, needed[0], st, depth)
         case None => None
         case Some(st1) => LoadDeps(p, needed[1..], st1, depth)
  }

  // ---------- what every call keeps and adds ----------

  predicate SlashFree(names: seq<Name>) { forall n :: n in names ==> '/' !in n }

  predicate PlainProvider(p: Provider) { forall n :: n in p ==> SlashFree(p[n].needed) }

  /** A name needs nothing more: it is loaded, or the provider has nothing loadable for it. */
  predicate Settled(p: Provider, libs: seq<Lib>, dep: Name) {
    dep in Names(libs) || BaseName(dep) !in p || !p[BaseName(dep)].loads
  }

  predicate AllSettled(p: Provider, libs: seq<Lib>, needed: seq<Name>) {
    forall dep :: dep in needed ==> Settled(p, libs, dep)
  }

  /** From index `from` on, everything needed by a library is settled. */
  predicate Closed(p: Provider, libs: seq<Lib>, from: nat) {
    forall i :: from <= i < |libs| ==> AllSettled(p, libs, libs[i].needed)
  }

  predicate NamesDistinct(libs: seq<Lib>) {
    forall i, j :: 0 <= i < j < |libs| ==> libs[i].name != libs[j].name
  }

  /** From index `from` on the slots follow each other upwards, end by `end`, and start at or above `start`. */
  predicate SlotsApart(libs: seq<Lib>, from: nat, start: nat, end: nat) {
    && start <= end
    && (forall i :: from <= i < |libs| ==> start <= libs[i].base && libs[i].base + SO_SLOT_SIZE <= end)
    && (forall i, j :: from <= i < j < |libs| ==> libs[i].base + SO_SLOT_SIZE <= libs[j].base)
  }

  predicate Grew(st: Linker, st': Linker) { st.libs <= st'.libs && SlotsApart(st'.libs, |st.libs|, st.nextSlot, st'.nextSlot) }

  /** The contract of a call that returns. */
  ghost predicate Correct(p: Provider, needed: seq<Name>, st: Linker, st': Linker) {
    Grew(st, st') && AllSettled(p, st'.libs, needed) && Closed(p, st'.libs, |st.libs|) && NamesDistinct(st'.libs)
  }

  /** Loading one library and then what it needs. */
  lemma {:induction false} CorrectAfterPush(p: Provider, dep: Name, st: Linker, st1: Linker, st': Linker)
    requires NamesDistinct(st.libs) && '/' !in dep && dep !in Names(st.libs) && dep in p
    requires st1 == Push(p, dep, st)
    requires Correct(p, p[dep].needed, st1, st')
    ensures Correct(p, [dep], st, st')
  {
    assert Grew(st, st1);
    assert st'.libs[|st.libs|] == st1.libs[|st.libs|] == Lib(dep, st.nextSlot, p[dep].needed);
  }

  lemma {:induction false} LoadOneCorrect(p: Provider, dep: Name, st: Linker, depth: nat)
    requires PlainProvider(p) && '/' !in dep && NamesDistinct(st.libs) && LoadOne(p, dep, st, depth).Some?
    ensures Correct(p, [dep], st, LoadOne(p, dep, st, depth).value)
    decreases depth, 0, 0
  {
    if !(dep in Names(st.libs) || dep !in p || !p[dep].loads) {
      var st1 := Push(p, dep, st);
      PushDistinct(st.libs, st1.libs[|st.libs|]);
      LoadDepsCorrect(p, p[dep].needed, st1, depth - 1);
      CorrectAfterPush(p, dep, st, st1, LoadOne(p, dep, st, depth).value);
    }
  }

  lemma {:induction false} PushDistinct(libs: seq<Lib>, l: Lib)
    requires NamesDistinct(libs) && l.name !in Names(libs)
    ensures NamesDistinct(libs + [l])
  {
    forall i | 0 <= i < |libs| ensures libs[i].name != l.name { assert libs[i] in libs; }
  }

  /**
   * With slash-free names a call that returns has loaded no name twice, left every name it was given and every name
   * needed by a library it loaded either loaded or unavailable, and put each library into a slot of its own.
   */
  lemma {:induction false} LoadDepsCorrect(p: Provider, needed: seq<Name>, st: Linker, depth: nat)
    requires PlainProvider(p) && SlashFree(needed) && NamesDistinct(st.libs) && LoadDeps(p, needed, st, depth).Some?
    ensures Correct(p, needed, st, LoadDeps(p, needed, st, depth).value)
    decreases depth, 1, |needed|
  {
    if needed == [] {
    } else {
      assert needed[0] in needed;
      LoadOneCorrect(p, needed[0], st, depth);
      var st1 := LoadOne(p, needed[0], st, depth).value;
      LoadDepsCorrect(p, needed[1..], st1, depth);
      assert needed == [needed[0]] + needed[1..];
    }
  }

  // ---------- termination ----------

  /** Provider names not loaded yet. */
  function Missing(p: Provider, st: Linker): set<Name> { p.Keys - Names(st.libs) }

  lemma {:induction false} NamesGrow(libs: seq<Lib>, libs': seq<Lib>)
    requires libs <= libs'
    ensures Names(libs) <= Names(libs')
  {
    forall l | l in libs ensures l in libs' { }
  }

  lemma {:induction false} PushNames(p: Provider, only: Name, st: Linker)
    requires only in p
    ensures Names(Push(p, only, st).libs) == Names(st.libs) + {only}
    ensures |Missing(p, Push(p, only, st))| == |Missing(p, st)| - if only in Names(st.libs) then 0 else 1
  {
    var st1 := Push(p, only, st);
    assert st1.libs[|st.libs|] in st1.libs;
    NamesGrow(st.libs, st1.libs);
    assert Missing(p, st1) == Missing(p, st) - {only};
  }

  lemma {:induction false} FewerMissing(p: Provider, st: Linker, st': Linker)
    requires st.libs <= st'.libs
    ensures |Missing(p, st')| <= |Missing(p, st)|
  {
    NamesGrow(st.libs, st'.libs);
    SubsetSize(Missing(p, st'), Missing(p, st));
  }

  lemma {:induction false} NeededPlain(p: Provider, n: Name)
    requires PlainProvider(p) && n in p
    ensures SlashFree(p[n].needed)
  {
  }

  lemma {:induction false} LoadOneReturns(p: Provider, dep: Name, st: Linker, depth: nat)
    requires PlainProvider(p) && '/' !in dep && NamesDistinct(st.libs) && |Missing(p, st)| <= depth
    ensures LoadOne(p, dep, st, depth).Some?
    decreases depth, 0, 0
  {
    hide LoadDeps; hide Names; hide NamesDistinct; hide PlainProvider; hide Missing;
    if dep !in Names(st.libs) && dep in p && p[dep].loads {
      var st1 := Push(p, dep, st);
      PushDistinct(st.libs, st1.libs[|st.libs|]);
      PushNames(p, dep, st);
      assert SlashFree(p[dep].needed) by { NeededPlain(p, dep); }
      LoadDepsReturns(p, p[dep].needed, st1, depth - 1);
    }
  }

  /** Nesting never exceeds the number of names not loaded yet, whatever cycles the dependency graph has. */
  lemma {:induction false} LoadDepsReturns(p: Provider, needed: seq<Name>, st: Linker, depth: nat)
    requires PlainProvider(p) && SlashFree(needed) && NamesDistinct(st.libs) && |Missing(p, st)| <= depth
    ensures LoadDeps(p, needed, st, depth).Some?
    decreases depth, 1, |needed|
  {
    if needed == [] {
    } else {
      assert needed[0] in needed;
      LoadOneReturns(p, needed[0], st, depth);
      LoadOneCorrect(p, needed[0], st, depth);
      var st1 := LoadOne(p, needed[0], st, depth).value;
      FewerMissing(p, st, st1);
      LoadDepsReturns(p, needed[1..], st1, depth);
    }
  }

  lemma {:induction false} DeeperOne(p: Provider, dep: Name, st: Linker, depth: nat, more: nat)
    requires LoadOne(p, dep, st, depth).Some? && depth <= more
    ensures LoadOne(p, dep, st, more) == LoadOne(p, dep, st, depth)
    decreases depth, 0, 0
  {
    var only := BaseName(dep);
    if !(dep in Names(st.libs) || only !in p || !p[only].loads) {
      DeeperDeps(p, p[only].needed, Push(p, only, st), depth - 1, more - 1);
    }
  }

  /** The bound on nesting only decides whether a call returns, never what it returns. */
  lemma {:induction false} DeeperDeps(p: Provider, needed: seq<Name>, st: Linker, depth: nat, more: nat)
    requires LoadDeps(p, needed, st, depth).Some? && depth <= more
    ensures LoadDeps(p, needed, st, more) == LoadDeps(p, needed, st, depth)
    decreases depth, 1, |needed|
  {
    if needed == [] {
    } else {
      DeeperOne(p, needed[0], st, depth, more);
      DeeperDeps(p, needed[1..], LoadOne(p, needed[0], st, depth).value, depth, more);
    }
  }

  // ---------- names that carry directories ----------

  predicate PlainNames(st: Linker) { forall l :: l in st.libs ==> '/' !in l.name }

  lemma {:induction false} OneGrows(p: Provider, dep: Name, st: Linker, depth: nat)
    requires PlainNames(st) && LoadOne(p, dep, st, depth).Some?
    ensures var st' := LoadOne(p, dep, st, depth).value; PlainNames(st') && st.libs <= st'.libs
    decreases depth, 0, 0
  {
    var only := BaseName(dep);
    if !(dep in Names(st.libs) || only !in p || !p[only].loads) {
      DepsGrow(p, p[only].needed, Push(p, only, st), depth - 1);
    }
  }

  lemma {:induction false} DepsGrow(p: Provider, needed: seq<Name>, st: Linker, depth: nat)
    requires PlainNames(st) && LoadDeps(p, needed, st, depth).Some?
    ensures var st' := LoadDeps(p, needed, st, depth).value; PlainNames(st') && st.libs <= st'.libs
    decreases depth, 1, |needed|
  {
    if needed == [] {
    } else {
      OneGrows(p, needed[0], st, depth);
      DepsGrow(p, needed[1..], LoadOne(p, needed[0], st, depth).value, depth);
    }
  }

  /** Some name of the list carries a directory and leads back into `trap`. */
  predicate LeadsInto(needed: seq<Name>, trap: set<Name>) {
    exists dep :: dep in needed && '/' in dep && BaseName(dep) in trap
  }

  /** Loadable files each of which needs another of them by path. */
  predicate Trap(p: Provider, trap: set<Name>) {
    forall n :: n in trap ==> n in p && p[n].loads && LeadsInto(p[n].needed, trap)
  }

  /** The loaded-already test compares whole names with bare ones, so a path into a trap is loaded again and again. */
  lemma {:induction false} TrapDivergesOne(p: Provider, trap: set<Name>, dep: Name, st: Linker, depth: nat)
    requires Trap(p, trap) && '/' in dep && BaseName(dep) in trap && PlainNames(st)
    ensures LoadOne(p, dep, st, depth) == None
    decreases depth, 0, 0
  {
    assert dep !in Names(st.libs);
    var only := BaseName(dep);
    if depth > 0 { TrapDivergesList(p, trap, p[only].needed, Push(p, only, st), depth - 1); }
  }

  lemma {:induction false} TrapDivergesList(p: Provider, trap: set<Name>, needed: seq<Name>, st: Linker, depth: nat)
    requires Trap(p, trap) && LeadsInto(needed, trap) && PlainNames(st)
    ensures LoadDeps(p, needed, st, depth) == None
    decreases depth, 1, |needed|
  {
    var dep :| dep in needed && '/' in dep && BaseName(dep) in trap;
    if dep == needed[0] {
      TrapDivergesOne(p, trap, dep, st, depth);
    } else if LoadOne(p, needed[0], st, depth).Some? {
      OneGrows(p, needed[0], st, depth);
      assert dep in needed[1..];
      TrapDivergesList(p, trap, needed[1..], LoadOne(p, needed[0], st, depth).value, depth);
    }
  }

  ghost predicate Diverges(p: Provider, needed: seq<Name>, st: Linker) {
    forall d: nat :: LoadDeps(p, needed, st, d) == None
  }

  ghost predicate OneDiverges(p: Provider, dep: Name, st: Linker) {
    forall d: nat :: LoadOne(p, dep, st, d) == None
  }

  /** A list that never returns has a name that never returns, met with at least as much loaded. */
  lemma {:induction false} DivergingName(p: Provider, needed: seq<Name>, st: Linker) returns (dep: Name, st': Linker)
    requires Diverges(p, needed, st) && PlainNames(st)
    ensures dep in needed && PlainNames(st') && |Missing(p, st')| <= |Missing(p, st)| && OneDiverges(p, dep, st')
    decreases |needed|
  {
    assert LoadDeps(p, needed, st, 0) == None;
    if OneDiverges(p, needed[0], st) { return needed[0], st; }
    var d0: nat :| LoadOne(p, needed[0], st, d0) != None;
    var st1 := LoadOne(p, needed[0], st, d0).value;
    OneGrows(p, needed[0], st, d0);
    forall d: nat ensures LoadDeps(p, needed[1..], st1, d) == None {
      var m := d + d0;
      DeeperOne(p, needed[0], st, d0, m);
      assert LoadDeps(p, needed, st, m) == None;
      if LoadDeps(p, needed[1..], st1, d).Some? { DeeperDeps(p, needed[1..], st1, d, m); }
    }
    dep, st' := DivergingName(p, needed[1..], st1);
    FewerMissing(p, st, st1);
  }

  lemma {:induction false} DivergingPush(p: Provider, dep: Name, st: Linker)
    requires OneDiverges(p, dep, st)
    ensures dep !in Names(st.libs) && BaseName(dep) in p && p[BaseName(dep)].loads
    ensures Diverges(p, p[BaseName(dep)].needed, Push(p, BaseName(dep), st))
  {
    assert LoadOne(p, dep, st, 0) == None;
    forall d: nat ensures LoadDeps(p, p[BaseName(dep)].needed, Push(p, BaseName(dep), st), d) == None {
      assert LoadOne(p, dep, st, d + 1) == None;
    }
  }

  /** Some name never returns in a state with `k` names missing. */
  ghost predicate Bad(p: Provider, k: nat) {
    exists dep, st :: OneDiverges(p, dep, st) && PlainNames(st) && |Missing(p, st)| == k
  }

  lemma {:induction false} LeastBad(p: Provider, k: nat) returns (least: nat)
    requires Bad(p, k)
    ensures Bad(p, least) && forall j: nat :: j < least ==> !Bad(p, j)
    decreases k
  {
    if j: nat :| j < k && Bad(p, j) { least := LeastBad(p, j); } else { least := k; }
  }

  ghost predicate Stuck(p: Provider, n: Name, k: nat)
    requires n in p
  {
    exists st :: Diverges(p, p[n].needed, st) && PlainNames(st) && |Missing(p, st)| == k
  }

  ghost function StuckNames(p: Provider, k: nat): set<Name> { set n | n in p && p[n].loads && Stuck(p, n, k) }

  lemma {:induction false} StuckBySlash(p: Provider, k: nat, dep: Name, st: Linker)
    requires OneDiverges(p, dep, st) && PlainNames(st) && |Missing(p, st)| == k && forall j: nat :: j < k ==> !Bad(p, j)
    ensures '/' in dep && BaseName(dep) in StuckNames(p, k)
  {
    hide OneDiverges; hide Diverges;
    DivergingPush(p, dep, st);
    var only := BaseName(dep);
    var st1 := Push(p, only, st);
    PushNames(p, only, st);
    var dep2, st2 := DivergingName(p, p[only].needed, st1);
    assert Bad(p, |Missing(p, st2)|);
    assert |Missing(p, st1)| == k;
    assert Stuck(p, only, k);
  }

  lemma {:induction false} StuckLeads(p: Provider, k: nat, n: Name)
    requires n in p && Stuck(p, n, k) && forall j: nat :: j < k ==> !Bad(p, j)
    ensures LeadsInto(p[n].needed, StuckNames(p, k))
  {
    hide OneDiverges; hide Diverges; hide StuckNames;
    var st :| Diverges(p, p[n].needed, st) && PlainNames(st) && |Missing(p, st)| == k;
    var dep, st2 := DivergingName(p, p[n].needed, st);
    assert Bad(p, |Missing(p, st2)|);
    StuckBySlash(p, k, dep, st2);
  }

  lemma {:induction false} StuckNamesTrap(p: Provider, k: nat)
    requires forall j: nat :: j < k ==> !Bad(p, j)
    ensures Trap(p, StuckNames(p, k))
  {
    hide Stuck; hide LeadsInto;
    forall n | n in StuckNames(p, k) ensures LeadsInto(p[n].needed, StuckNames(p, k)) { StuckLeads(p, k, n); }
  }

  ghost predicate SomeLoadDiverges(p: Provider) { exists needed, st :: Diverges(p, needed, st) && PlainNames(st) }

  ghost predicate HasTrap(p: Provider) { exists trap :: Trap(p, trap) && trap != {} }

  lemma {:induction false} DivergenceHasTrap(p: Provider, needed: seq<Name>, st: Linker)
    requires Diverges(p, needed, st) && PlainNames(st)
    ensures HasTrap(p)
  {
    hide Diverges; hide OneDiverges; hide Trap; hide StuckNames; hide PlainNames;
    var dep, st1 := DivergingName(p, needed, st);
    assert Bad(p, |Missing(p, st1)|);
    var k := LeastBad(p, |Missing(p, st1)|);
    var dep2, st2 :| OneDiverges(p, dep2, st2) && PlainNames(st2) && |Missing(p, st2)| == k;
    StuckBySlash(p, k, dep2, st2);
    StuckNamesTrap(p, k);
    assert BaseName(dep2) in StuckNames(p, k);
  }

  lemma {:induction false} TrapDiverges(p: Provider, trap: set<Name>, n: Name)
    requires Trap(p, trap) && n in trap
    ensures Diverges(p, p[n].needed, Linker([], SO_LOAD_BASE))
  {
    forall d: nat ensures LoadDeps(p, p[n].needed, Linker([], SO_LOAD_BASE), d) == None {
      TrapDivergesList(p, trap, p[n].needed, Linker([], SO_LOAD_BASE), d);
    }
  }

  /** load_deps returns from every list and state exactly when no files need each other in a circle by path. */
  lemma {:induction false} DivergesIffTrap(p: Provider)
    ensures SomeLoadDiverges(p) <==> HasTrap(p)
  {
    hide Diverges;
    if SomeLoadDiverges(p) {
      var needed, st :| Diverges(p, needed, st) && PlainNames(st);
      DivergenceHasTrap(p, needed, st);
    }
    if HasTrap(p) {
      var trap :| Trap(p, trap) && trap != {};
      var n :| n in trap;
      TrapDiverges(p, trap, n);
      assert PlainNames(Linker([], SO_LOAD_BASE));
    }
  }

  // ---------- the whole load of an executable ----------

  /** The result of load_deps, for names without directories. */
  function Load(p: Provider, needed: seq<Name>, st: Linker): Linker
    requires PlainProvider(p) && SlashFree(needed) && NamesDistinct(st.libs)
  {
    LoadDepsReturns(p, needed, st, |Missing(p, st)|);
    LoadDeps(p, needed, st, |Missing(p, st)|).value
  }

  /**
   * From any linker state: the call returns at every sufficient depth with the same result, in which names are
   * distinct, everything needed is settled, and slots are disjoint; slots that end by 64 slot sizes above the
   * first stay below the interpreter.
   */
  lemma {:induction false} LoadCorrect(p: Provider, needed: seq<Name>, st: Linker, depth: nat)
    requires PlainProvider(p) && SlashFree(needed) && NamesDistinct(st.libs) && |Missing(p, st)| <= depth
    ensures LoadDeps(p, needed, st, depth) == Some(Load(p, needed, st))
    ensures Correct(p, needed, st, Load(p, needed, st))
  {
    LoadDepsReturns(p, needed, st, |Missing(p, st)|);
    DeeperDeps(p, needed, st, |Missing(p, st)|, depth);
    LoadDepsCorrect(p, needed, st, |Missing(p, st)|);
  }

  predicate AllLoad(p: Provider) { forall n :: n in p ==> p[n].loads }

  /** When no file is refused, slots are used one per library. */
  lemma {:induction false} OneSlotEach(p: Provider, needed: seq<Name>, st: Linker, depth: nat)
    requires AllLoad(p) && LoadDeps(p, needed, st, depth).Some?
    ensures var st' := LoadDeps(p, needed, st, depth).value;
            st'.nextSlot - st.nextSlot == 0x0100_0000 * (|st'.libs| - |st.libs|)
    decreases depth, 1, |needed|
  {
    if needed == [] {
    } else {
      var only := BaseName(needed[0]);
      if !(needed[0] in Names(st.libs) || only !in p) {
        OneSlotEach(p, p[only].needed, Push(p, only, st), depth - 1);
      }
      OneSlotEach(p, needed[1..], LoadOne(p, needed[0], st, depth).value, depth);
    }
  }

  /** A file that load_so_at refuses is not loaded, but its slot stays empty; a name the provider lacks takes no slot. */
  lemma {:induction false} RefusedKeepsSlot(p: Provider, before: seq<Name>, dep: Name, st: Linker, depth: nat)
    requires LoadDeps(p, before, st, depth).Some? && (BaseName(dep) in p ==> !p[BaseName(dep)].loads)
    ensures var st1 := LoadDeps(p, before, st, depth).value;
            LoadDeps(p, before + [dep], st, depth)
            == Some(Linker(st1.libs, if BaseName(dep) in p && dep !in Names(st1.libs) then st1.nextSlot + 0x0100_0000 else st1.nextSlot))
    decreases |before|
  {
    hide BaseName;
    if before == [] {
      assert [] + [dep] == [dep] && [dep][1..] == [];
      assert LoadDeps(p, [], LoadOne(p, dep, st, depth).value, depth) == LoadOne(p, dep, st, depth);
    } else {
      var st1 := LoadOne(p, before[0], st, depth).value;
      assert (before + [dep])[1..] == before[1..] + [dep];
      RefusedKeepsSlot(p, before[1..], dep, st1, depth);
    }
  }

  /** The slots handed out from SO_LOAD_BASE end below the interpreter exactly for the first 64. */
  lemma {:induction false} SlotBelowInterpreterIff(k: nat)
    ensures SO_LOAD_BASE + k * SO_SLOT_SIZE + SO_SLOT_SIZE <= INTERP_LOAD_BASE <==> k < 64
  {
  }

  /** A fresh linker over at most 64 loadable files keeps every library below the interpreter. */
  lemma {:induction false} SixtyFourFit(p: Provider, needed: seq<Name>, libs: seq<Lib>, i: nat)
    requires PlainProvider(p) && SlashFree(needed) && NamesDistinct(libs) && AllLoad(p) && |p.Keys| <= 64
    requires |libs| <= i < |Load(p, needed, Linker(libs, SO_LOAD_BASE)).libs|
    ensures var l := Load(p, needed, Linker(libs, SO_LOAD_BASE)).libs[i];
            SO_LOAD_BASE <= l.base && l.base + SO_SLOT_SIZE <= INTERP_LOAD_BASE
  {
    var st := Linker(libs, SO_LOAD_BASE);
    var st' := Load(p, needed, st);
    LoadCorrect(p, needed, st, |Missing(p, st)|);
    OneSlotEach(p, needed, st, |Missing(p, st)|);
    NewNamesProvided(p, needed, st, |Missing(p, st)|);
    DistinctCount(st'.libs[|libs|..]);
    SubsetSize(Names(st'.libs[|libs|..]), p.Keys);
  }

  lemma {:induction false} DistinctCount(libs: seq<Lib>)
    requires NamesDistinct(libs)
    ensures |Names(libs)| == |libs|
  {
    if libs == [] {
    } else {
      var init, last := libs[..|libs| - 1], libs[|libs| - 1];
      DistinctCount(init);
      assert last.name !in Names(init);
      assert Names(libs) == Names(init) + {last.name};
    }
  }

  lemma {:induction false} NewNamesProvided(p: Provider, needed: seq<Name>, st: Linker, depth: nat)
    requires LoadDeps(p, needed, st, depth).Some?
    ensures var st' := LoadDeps(p, needed, st, depth).value;
            st.libs <= st'.libs && Names(st'.libs[|st.libs|..]) <= p.Keys
    decreases depth, 1, |needed|
  {
    if needed == [] {
    } else {
      var only := BaseName(needed[0]);
      var st1 := LoadOne(p, needed[0], st, depth).value;
      if !(needed[0] in Names(st.libs) || only !in p || !p[only].loads) {
        NewNamesProvided(p, p[only].needed, Push(p, only, st), depth - 1);
        assert st1.libs[|st.libs|..] == [Lib(only, st.nextSlot, p[only].needed)] + st1.libs[|st.libs| + 1..];
      }
      NewNamesProvided(p, needed[1..], st1, depth);
      var st' := LoadDeps(p, needed, st, depth).value;
      assert st'.libs[|st.libs|..] == st1.libs[|st.libs|..] + st'.libs[|st1.libs|..];
    }
  }

  /** The library at `i` was asked for by the list, or by a library loaded before it from `from` on. */
  ghost predicate Wanted(libs: seq<Lib>, from: nat, needed: seq<Name>, i: nat)
    requires i < |libs|
  {
    exists dep :: BaseName(dep) == libs[i].name && (dep in needed || exists j :: from <= j < i && dep in libs[j].needed)
  }

  ghost predicate AllWanted(p: Provider, libs: seq<Lib>, from: nat, needed: seq<Name>) {
    forall i :: from <= i < |libs| ==> Wanted(libs, from, needed, i) && libs[i].name in p && libs[i].needed == p[libs[i].name].needed
  }

  lemma {:induction false} WantedAfterPush(p: Provider, dep: Name, st: Linker, libs: seq<Lib>)
    requires BaseName(dep) in p && var st1 := Push(p, BaseName(dep), st); st1.libs <= libs && AllWanted(p, libs, |st1.libs|, p[BaseName(dep)].needed)
    ensures AllWanted(p, libs, |st.libs|, [dep])
  {
    var only := BaseName(dep);
    assert libs[|st.libs|] == Lib(only, st.nextSlot, p[only].needed);
    assert dep in [dep];
    forall i | |st.libs| <= i < |libs| ensures Wanted(libs, |st.libs|, [dep], i) {
      if i > |st.libs| {
        var d :| BaseName(d) == libs[i].name && (d in p[only].needed || exists j :: |st.libs| + 1 <= j < i && d in libs[j].needed);
        assert d in p[only].needed ==> d in libs[|st.libs|].needed;
      }
    }
  }

  /** Nothing is loaded that was not asked for. */
  lemma {:induction false} OnlyWanted(p: Provider, needed: seq<Name>, st: Linker, depth: nat)
    requires LoadDeps(p, needed, st, depth).Some?
    ensures var st' := LoadDeps(p, needed, st, depth).value; st.libs <= st'.libs && AllWanted(p, st'.libs, |st.libs|, needed)
    decreases depth, 1, |needed|
  {
    if needed == [] {
    } else {
      hide Wanted; hide AllWanted;
      var only := BaseName(needed[0]);
      var st1 := LoadOne(p, needed[0], st, depth).value;
      if !(needed[0] in Names(st.libs) || only !in p || !p[only].loads) {
        OnlyWanted(p, p[only].needed, Push(p, only, st), depth - 1);
        WantedAfterPush(p, needed[0], st, st1.libs);
      }
      OnlyWanted(p, needed[1..], st1, depth);
      assert needed == [needed[0]] + needed[1..];
    }
  }

  // ---------- the linker object ----------

  class DynLinker {
    const provider: Provider
    var libs: seq<Lib>
    var nextSlot: nat

    ghost function View(): Linker
      reads this
    {
      Linker(libs, nextSlot)
    }

    constructor (p: Provider)
      ensures provider == p && View() == Linker([], SO_LOAD_BASE)
    {
      provider, libs, nextSlot := p, [], SO_LOAD_BASE;
    }

    method IsLoaded(name: Name) returns (found: bool)
      ensures found == (name in Names(libs))
    {
      found := false;
      for i := 0 to |libs|
        invariant found == exists j :: 0 <= j < i && libs[j].name == name
      {
        if libs[i].name == name { found := true; }
      }
    }

    /** The loop over the list; `depth` is what is left of the stack, and false says that it does not suffice. */
    method LoadNeeded(needed: seq<Name>, depth: nat) returns (ok: bool)
      modifies this
      ensures LoadDeps(provider, needed, old(View()), depth) == if ok then Some(View()) else None
      decreases depth, 1
    {
      hide LoadOne; hide Names;
      assert needed[0..] == needed;
      for i := 0 to |needed|
        invariant LoadDeps(provider, needed[i..], View(), depth) == LoadDeps(provider, needed, old(View()), depth)
      {
        assert needed[i..][1..] == needed[i + 1..];
        ok := LoadName(needed[i], depth);
        if !ok { return; }
      }
      return true;
    }

    /** One turn of it. */
    method LoadName(dep: Name, depth: nat) returns (ok: bool)
      modifies this
      ensures LoadOne(provider, dep, old(View()), depth) == if ok then Some(View()) else None
      decreases depth, 0
    {
      hide Names; hide LoadDeps;
      var loaded := IsLoaded(dep);
      if loaded { return true; }
      var only := BaseName(dep);
      if only !in provider { return true; }
      var slot := nextSlot;
      nextSlot := nextSlot + SO_SLOT_SIZE;
      if !provider[only].loads { return true; }
      if depth == 0 { return false; }
      libs := libs + [Lib(only, slot, provider[only].needed)];
      ok := LoadNeeded(provider[only].needed, depth - 1);
    }
  }
}
