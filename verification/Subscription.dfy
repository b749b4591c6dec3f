/** Updating a subscription: creating its profiles in the store
    (applySubscription, subscription.go; loadProfile and saveProfile, profile.go). */
module Subscription {
  import opened Text
  import opened Wrappers
  import opened ImportName

  datatype Profile = Profile(settings: string, groups: seq<string>, subscription: string)

  /** A stored file. loadProfile fails on one whose link file cannot be read or
      parsed, and on one that is not a profile at all, as on one that is not
      there. */
  datatype File = Readable(profile: Profile) | BrokenLink(profile: Profile) | Corrupt

  type Files = map<string, File>

  function Loaded(files: Files, name: string): Option<Profile> {
    if name in files && files[name].Readable? then Some(files[name].profile) else None
  }

  /** A managed profile always carries its subscription's group. */
  function Completed(p: Profile): Profile {
    if p.subscription != "" && p.subscription !in p.groups then p.(groups := p.groups + [p.subscription]) else p
  }

  /** Nothing else changes: a profile without its group gets it, behind the groups
      it has. */
  lemma CompletedExactly(p: Profile)
    ensures Completed(p) == p <==> p.subscription == "" || p.subscription in p.groups
    ensures Completed(p) == p || Completed(p) == Profile(p.settings, p.groups + [p.subscription], p.subscription)
  {
  }

  predicate ReadOnly(name: string) { HasPrefix(name, "ro-") }

  class ProfileStore {
    var files: Files

    constructor (initial: Files)
      ensures files == initial
    {
      files := initial;
    }

    /** loadProfile. */
    method Load(name: string) returns (p: Option<Profile>)
      ensures p == Loaded(files, name)
    {
      if name in files {
        match files[name] {
          case Readable(profile) => return Some(profile);
          case _ => return None;
        }
      }
      return None;
    }

    /** saveProfile; `disk` says whether the file system obliges. */
    method Save(name: string, p: Profile, disk: bool) returns (saved: bool)
      modifies this
      ensures saved == (!ReadOnly(name) && disk)
      ensures files == if saved then old(files)[name := Readable(Completed(p))] else old(files)
    {
      if HasPrefix(name, "ro-") {
        return false;
      }
      var completed := p;
      if p.subscription != "" {
        var found := false;
        for i := 0 to |p.groups|
          invariant found <==> p.subscription in p.groups[..i]
        {
          if p.groups[i] == p.subscription {
            found := true;
            break;
          }
        }
        if !found {
          completed := p.(groups := p.groups + [p.subscription]);
        }
      }
      if !disk {
        return false;
      }
      files := files[name := Readable(completed)];
      return true;
    }
  }

  // ----- Finding a free name -----

  function Candidate(base: string, c: nat): string { base + "_sub" + Decimal(c) }

  /** The marks in names: "ro-" in front, "_sub" and a number behind. */
  lemma NamesAre(base: string, c: nat)
    ensures ReadOnly(base) <==> exists rest :: base == "ro-" + rest
    ensures Candidate(base, c) == base + "_sub" + Decimal(c) && Decimal(0) == "0" && Decimal(1) == "1"
  {
    if ReadOnly(base) {
      assert base == "ro-" + base[3..];
    }
  }

  lemma CandidatesDiffer(base: string, c: nat, d: nat)
    requires Candidate(base, c) == Candidate(base, d)
    ensures c == d
  {
    hide Decimal;
    var stem := base + "_sub";
    assert Candidate(base, c) == stem + Decimal(c) && Candidate(base, d) == stem + Decimal(d);
    assert (stem + Decimal(c))[|stem|..] == Decimal(c);
    assert (stem + Decimal(d))[|stem|..] == Decimal(d);
    DecimalIsInjective(c, d);
  }

  /** The stored names that are not among the first c candidates. */
  ghost function Untried(files: Files, base: string, c: nat): set<string> {
    set n | n in files && forall d: nat :: d < c ==> n != Candidate(base, d)
  }

  /** A taken candidate is a stored name that will not be tried again. */
  lemma FewerUntried(files: Files, base: string, c: nat)
    requires Loaded(files, Candidate(base, c)).Some?
    ensures Untried(files, base, c + 1) < Untried(files, base, c)
  {
    hide Candidate;
    forall d: nat | d < c ensures Candidate(base, c) != Candidate(base, d) {
      if Candidate(base, c) == Candidate(base, d) {
        CandidatesDiffer(base, c, d);
        assert false;
      }
    }
    assert Candidate(base, c) in Untried(files, base, c);
    assert Candidate(base, c) !in Untried(files, base, c + 1);
  }

  /** The first free candidate from c on: the search ends because candidates are
      distinct and the store is finite. */
  function FreeFrom(files: Files, base: string, c: nat): (f: nat)
    ensures f >= c && Loaded(files, Candidate(base, f)).None?
    ensures forall d: nat :: c <= d < f ==> Loaded(files, Candidate(base, d)).Some?
    decreases Untried(files, base, c)
  {
    if Loaded(files, Candidate(base, c)).None? then c
    else
      FewerUntried(files, base, c);
      FreeFrom(files, base, c + 1)
  }

  // ----- The creation loop -----

  /** An entry that converts to a profile, with its normalised name and whether
      its file can be written, or one that does not convert. */
  datatype Entry = Entry(name: string, settings: string, disk: bool) | Invalid

  datatype State = State(files: Files, counter: map<string, nat>, names: seq<string>)

  function BaseName(e: Entry, subName: string): string
    requires e.Entry?
  {
    if e.name == "" then subName else e.name
  }

  function Counter(counter: map<string, nat>, base: string): nat { if base in counter then counter[base] else 0 }

  /** Someone else's profile stands under the entry's own name. */
  predicate Taken(files: Files, base: string, subName: string) {
    Loaded(files, base).Some? && Loaded(files, base).value.subscription != subName
  }

  function FinalName(st: State, base: string, subName: string): string {
    if Taken(st.files, base, subName) then Candidate(base, FreeFrom(st.files, base, Counter(st.counter, base)))
    else base
  }

  function ProfileOf(e: Entry, subName: string): Profile
    requires e.Entry?
  {
    Profile(e.settings, [], subName)
  }

  /** Entries that end up in the store. */
  predicate Fileable(e: Entry, subName: string) { e.Entry? && e.disk && !ReadOnly(BaseName(e, subName)) }

  function Step(st: State, e: Entry, subName: string): State {
    if e.Invalid? then st
    else
      var base := BaseName(e, subName);
      var name := FinalName(st, base, subName);
      var counter := if Taken(st.files, base, subName)
        then st.counter[base := FreeFrom(st.files, base, Counter(st.counter, base)) + 1] else st.counter;
      if ReadOnly(name) || !e.disk then st.(counter := counter)
      else State(st.files[name := Readable(Completed(ProfileOf(e, subName)))], counter, st.names + [name])
  }

  function Created(files: Files, entries: seq<Entry>, subName: string): State {
    if entries == [] then State(files, map[], [])
    else Step(Created(files, entries[..|entries| - 1], subName), entries[|entries| - 1], subName)
  }

  /** The search loop. */
  method FindFree(store: ProfileStore, base: string, counter: map<string, nat>)
    returns (name: string, after: map<string, nat>)
    ensures var f := FreeFrom(store.files, base, Counter(counter, base));
            name == Candidate(base, f) && after == counter[base := f + 1]
  {
    hide Candidate;
    after := counter;
    ghost var goal := FreeFrom(store.files, base, Counter(counter, base));
    while true
      invariant FreeFrom(store.files, base, Counter(after, base)) == goal
      invariant after == counter || (base in after && after == counter[base := after[base]])
      decreases Untried(store.files, base, Counter(after, base))
    {
      var c := if base in after then after[base] else 0;
      after := after[base := c + 1];
      name := Candidate(base, c);
      var p := store.Load(name);
      if p.None? {
        return;
      }
      FewerUntried(store.files, base, c);
    }
  }

  /** The creation loop of applySubscription. */
  method CreateProfiles(store: ProfileStore, entries: seq<Entry>, subName: string) returns (newProfiles: seq<string>)
    modifies store
    ensures var st := Created(old(store.files), entries, subName);
            store.files == st.files && newProfiles == st.names
  {
    hide Candidate, FreeFrom, ReadOnly;
    newProfiles := [];
    var nameCounter: map<string, nat> := map[];
    ghost var before := store.files;
    for i := 0 to |entries|
      invariant State(store.files, nameCounter, newProfiles) == Created(before, entries[..i], subName)
    {
      assert entries[..i + 1][..i] == entries[..i];
      if entries[i].Entry? {
        var prof := ProfileOf(entries[i], subName);
        var baseName := entries[i].name;
        if baseName == "" {
          baseName := subName;
        }
        var finalName := baseName;
        var existing := store.Load(finalName);
        if existing.Some? && existing.value.subscription != subName {
          finalName, nameCounter := FindFree(store, baseName, nameCounter);
        }
        var saved := store.Save(finalName, prof, entries[i].disk);
        if saved {
          newProfiles := newProfiles + [finalName];
        }
      }
    }
    assert entries[..|entries|] == entries;
  }

  // ----- What the update leaves -----

  /** Files of other owners are as they were. */
  ghost predicate OthersKept(before: Files, after: Files, subName: string) {
    forall n :: Taken(before, n, subName) ==> n in after && after[n] == before[n]
  }

  /** Everything listed is stored, owned by the subscription and in its group. */
  ghost predicate ListedOwned(st: State, subName: string) {
    forall n :: n in st.names ==>
      Loaded(st.files, n).Some? && Loaded(st.files, n).value.subscription == subName
      && (subName != "" ==> subName in Loaded(st.files, n).value.groups)
  }

  /** Only listed names changed. */
  ghost predicate RestUntouched(before: Files, st: State) {
    forall n :: n !in st.names ==>
      (n in st.files <==> n in before) && (n in before ==> st.files[n] == before[n])
  }

  lemma FinalNameIsFree(st: State, base: string, subName: string)
    ensures !Taken(st.files, FinalName(st, base, subName), subName)
  {
  }

  lemma StepIsSafe(before: Files, st: State, e: Entry, subName: string)
    requires OthersKept(before, st.files, subName) && ListedOwned(st, subName) && RestUntouched(before, st)
    ensures var next := Step(st, e, subName);
            OthersKept(before, next.files, subName) && ListedOwned(next, subName) && RestUntouched(before, next)
  {
    hide Candidate, FreeFrom, ReadOnly;
    if e.Entry? {
      var name := FinalName(st, BaseName(e, subName), subName);
      FinalNameIsFree(st, BaseName(e, subName), subName);
      hide FinalName;
      if !ReadOnly(name) && e.disk {
        var next := Step(st, e, subName);
        forall n | n in next.names
          ensures Loaded(next.files, n).Some? && Loaded(next.files, n).value.subscription == subName
          ensures subName != "" ==> subName in Loaded(next.files, n).value.groups
        {
          assert n == name || n in st.names;
        }
        forall n | Taken(before, n, subName) ensures n in next.files && next.files[n] == before[n] {
          assert n != name;
        }
        forall n | n !in next.names
          ensures (n in next.files <==> n in before) && (n in before ==> next.files[n] == before[n])
        {
          assert n != name && n !in st.names by {
            assert next.names == st.names + [name];
          }
        }
      }
    }
  }

  /** The creation phase over any store: profiles of other owners survive, every
      listed name is stored as the subscription's own, nothing else changes. */
  lemma {:induction false} CreationIsSafe(files: Files, entries: seq<Entry>, subName: string)
    ensures var st := Created(files, entries, subName);
            OthersKept(files, st.files, subName) && ListedOwned(st, subName) && RestUntouched(files, st)
  {
    if entries != [] {
      var n := |entries| - 1;
      CreationIsSafe(files, entries[..n], subName);
      StepIsSafe(files, Created(files, entries[..n], subName), entries[n], subName);
      hide Step, OthersKept, ListedOwned, RestUntouched;
    }
  }

  // ----- Which entries are filed -----

  lemma CandidateReadOnly(base: string, c: nat)
    ensures ReadOnly(Candidate(base, c)) <==> ReadOnly(base)
  {
    hide Decimal;
    var name := Candidate(base, c);
    assert name == base + ("_sub" + Decimal(c));
    assert name[|base|] == '_';
    assert forall k :: 0 <= k < |base| ==> name[k] == base[k];
    assert "ro-"[0] == 'r' && "ro-"[1] == 'o' && "ro-"[2] == '-';
  }

  lemma FinalNameReadOnly(st: State, base: string, subName: string)
    ensures ReadOnly(FinalName(st, base, subName)) <==> ReadOnly(base)
  {
    hide ReadOnly, Candidate;
    if Taken(st.files, base, subName) {
      CandidateReadOnly(base, FreeFrom(st.files, base, Counter(st.counter, base)));
    }
  }

  function Fileables(entries: seq<Entry>, subName: string): (es: seq<Entry>)
    ensures forall e :: e in es ==> e.Entry?
  {
    if entries == [] then []
    else
      var n := |entries| - 1;
      Fileables(entries[..n], subName) + if Fileable(entries[n], subName) then [entries[n]] else []
  }

  /** The name is the entry's own or a candidate made from it. */
  ghost predicate MadeFrom(name: string, base: string) { name == base || exists c: nat :: name == Candidate(base, c) }

  /** The k-th listed name belongs to the k-th entry that can be filed, and holds
      its profile unless a later entry got the same name. */
  ghost predicate Stands(st: State, filed: seq<Entry>, subName: string, k: nat)
    requires k < |filed| == |st.names| && filed[k].Entry?
  {
    && MadeFrom(st.names[k], BaseName(filed[k], subName))
    && ((forall l :: k < l < |st.names| ==> st.names[l] != st.names[k]) ==>
          Loaded(st.files, st.names[k]) == Some(Completed(ProfileOf(filed[k], subName))))
  }

  ghost predicate AllStand(st: State, filed: seq<Entry>, subName: string) {
    && |filed| == |st.names|
    && forall k :: 0 <= k < |filed| ==> filed[k].Entry? && Stands(st, filed, subName, k)
  }

  lemma StepFiles(st: State, e: Entry, subName: string, filed: seq<Entry>)
    requires AllStand(st, filed, subName)
    ensures AllStand(Step(st, e, subName), filed + if Fileable(e, subName) then [e] else [], subName)
  {
    hide Candidate, FreeFrom, ReadOnly, Completed, ProfileOf;
    if e.Entry? {
      var base := BaseName(e, subName);
      var name := FinalName(st, base, subName);
      FinalNameReadOnly(st, base, subName);
      assert MadeFrom(name, base);
      hide FinalName, BaseName, MadeFrom;
      var next, all := Step(st, e, subName), filed + if Fileable(e, subName) then [e] else [];
      forall k | 0 <= k < |all| ensures all[k].Entry? && Stands(next, all, subName, k) {
        if k < |filed| {
          assert Stands(st, filed, subName, k);
          if Fileable(e, subName) && name != st.names[k] {
            assert forall l :: k < l < |st.names| ==> next.names[l] == st.names[l];
          }
          assert Fileable(e, subName) ==> next.names[|st.names|] == name;
        }
      }
    } else {
      assert filed + [] == filed;
    }
  }

  /** Every entry that converts and is not read-only is filed, in order; the last
      entry filed under a name is the one that stays. */
  lemma {:induction false} EntriesAreFiled(files: Files, entries: seq<Entry>, subName: string)
    ensures AllStand(Created(files, entries, subName), Fileables(entries, subName), subName)
  {
    if entries != [] {
      var n := |entries| - 1;
      EntriesAreFiled(files, entries[..n], subName);
      StepFiles(Created(files, entries[..n], subName), entries[n], subName, Fileables(entries[..n], subName));
      hide Step, AllStand;
    }
  }

  // ----- When an entry replaces an earlier one -----

  /** A new name repeats a listed one if and only if the entry's own name is
      already listed: made-up names never collide. */
  lemma RepeatsExactly(files: Files, entries: seq<Entry>, e: Entry, subName: string)
    requires Fileable(e, subName)
    ensures var st := Created(files, entries, subName);
            FinalName(st, BaseName(e, subName), subName) in st.names <==> BaseName(e, subName) in st.names
  {
    hide Candidate, BaseName;
    CreationIsSafe(files, entries, subName);
  }

  ghost predicate FormOf(name: string, base: string) { exists c: nat :: name == Candidate(base, c) }

  /** A name is somebody else's after some entries just when it was before. */
  lemma TakenStays(files: Files, st: State, name: string, subName: string)
    requires OthersKept(files, st.files, subName) && ListedOwned(st, subName) && RestUntouched(files, st)
    ensures Taken(st.files, name, subName) <==> Taken(files, name, subName)
  {
  }

  // ----- Which name an entry gets -----

  /** No name for another entry to be made up. */
  predicate Occupied(files: Files, listed: seq<string>, name: string) { Loaded(files, name).Some? || name in listed }

  /** The d-th made-up name went to an entry that could not be saved. */
  ghost predicate Wasted(files: Files, entries: seq<Entry>, base: string, d: nat, subName: string) {
    exists j :: 0 <= j < |entries| && WastedAt(files, entries[..j], entries[j], base, d, subName)
  }

  ghost predicate WastedAt(files: Files, before: seq<Entry>, e: Entry, base: string, d: nat, subName: string) {
    && e.Entry? && BaseName(e, subName) == base && !Fileable(e, subName)
    && FinalName(Created(files, before, subName), base, subName) == Candidate(base, d)
  }

  ghost predicate UsedUp(files: Files, entries: seq<Entry>, listed: seq<string>, base: string, d: nat, subName: string) {
    Occupied(files, listed, Candidate(base, d)) || Wasted(files, entries, base, d, subName)
  }

  ghost predicate AllBelow(files: Files, entries: seq<Entry>, listed: seq<string>,
                           base: string, c: nat, subName: string) {
    forall d: nat :: d < c ==> UsedUp(files, entries, listed, base, d, subName)
  }

  /** The made-up name is unoccupied, and all before it are used up. */
  ghost predicate NextForm(files: Files, entries: seq<Entry>, listed: seq<string>,
                           base: string, name: string, subName: string) {
    exists c: nat :: name == Candidate(base, c) && !Occupied(files, listed, name)
                     && AllBelow(files, entries, listed, base, c, subName)
  }

  /** The name of the k-th filed entry: its own if nobody else holds that;
      otherwise the first made-up one that neither the store nor an earlier entry
      has, and that no failed entry has used up. */
  ghost predicate GivenAt(files: Files, entries: seq<Entry>, st: State, filed: seq<Entry>, subName: string, k: nat)
    requires k < |filed| == |st.names| && filed[k].Entry?
  {
    var base := BaseName(filed[k], subName);
    if Taken(files, base, subName) then NextForm(files, entries, st.names[..k], base, st.names[k], subName)
    else st.names[k] == base
  }

  ghost predicate Given(files: Files, entries: seq<Entry>, st: State, filed: seq<Entry>, subName: string) {
    && |filed| == |st.names|
    && forall k :: 0 <= k < |filed| ==> filed[k].Entry? && GivenAt(files, entries, st, filed, subName, k)
  }

  /** The counters have passed nothing but used-up names. */
  ghost predicate Counted(files: Files, entries: seq<Entry>, st: State, subName: string) {
    forall base :: AllBelow(files, entries, st.names, base, Counter(st.counter, base), subName)
  }

  lemma WastedGrows(files: Files, entries: seq<Entry>, e: Entry, base: string, d: nat, subName: string)
    ensures Wasted(files, entries + [e], base, d, subName)
       <==> Wasted(files, entries, base, d, subName) || WastedAt(files, entries, e, base, d, subName)
  {
    hide WastedAt;
    var all := entries + [e];
    assert all[..|entries|] == entries && all[|entries|] == e;
    assert forall j :: 0 <= j < |entries| ==> all[..j] == entries[..j] && all[j] == entries[j];
  }

  lemma MoreUsedUp(files: Files, entries: seq<Entry>, e: Entry, listed: seq<string>, more: seq<string>,
                   base: string, c: nat, subName: string)
    requires AllBelow(files, entries, listed, base, c, subName) && listed <= more
    ensures AllBelow(files, entries + [e], more, base, c, subName)
  {
    hide Wasted, Candidate, Loaded;
    forall d: nat | d < c ensures UsedUp(files, entries + [e], more, base, d, subName) {
      assert UsedUp(files, entries, listed, base, d, subName);
      WastedGrows(files, entries, e, base, d, subName);
    }
  }

  /** The name found is the first one not used up. */
  lemma FoundIsNext(files: Files, entries: seq<Entry>, st: State, base: string, subName: string)
    requires ListedOwned(st, subName) && RestUntouched(files, st) && Counted(files, entries, st, subName)
    ensures var f := FreeFrom(st.files, base, Counter(st.counter, base));
            !Occupied(files, st.names, Candidate(base, f)) && AllBelow(files, entries, st.names, base, f, subName)
  {
  }

  lemma StepCounts(files: Files, entries: seq<Entry>, e: Entry, subName: string)
    requires var st := Created(files, entries, subName);
             ListedOwned(st, subName) && RestUntouched(files, st) && Counted(files, entries, st, subName)
    ensures Counted(files, entries + [e], Step(Created(files, entries, subName), e, subName), subName)
  {
    hide *;
    var next := Step(Created(files, entries, subName), e, subName);
    forall base ensures AllBelow(files, entries + [e], next.names, base, Counter(next.counter, base), subName) {
      StepCountsFor(files, entries, e, subName, base);
    }
    IsCounted(files, entries + [e], next, subName);
  }

  lemma IsCounted(files: Files, entries: seq<Entry>, st: State, subName: string)
    requires forall base :: AllBelow(files, entries, st.names, base, Counter(st.counter, base), subName)
    ensures Counted(files, entries, st, subName)
  {
  }

  lemma StepCountsFor(files: Files, entries: seq<Entry>, e: Entry, subName: string, base: string)
    requires var st := Created(files, entries, subName);
             ListedOwned(st, subName) && RestUntouched(files, st) && Counted(files, entries, st, subName)
    ensures var next := Step(Created(files, entries, subName), e, subName);
            AllBelow(files, entries + [e], next.names, base, Counter(next.counter, base), subName)
  {
    var st := Created(files, entries, subName);
    var next, c := Step(st, e, subName), Counter(st.counter, base);
    hide *;
    CounterAfter(st, e, base, subName);
    NamesGrow(st, e, subName);
    if Counter(next.counter, base) == c {
      AllBelowCounter(files, entries, st, base, subName);
      MoreUsedUp(files, entries, e, st.names, next.names, base, c, subName);
    } else {
      var f := FreeFrom(st.files, base, c);
      FoundIsNext(files, entries, st, base, subName);
      MoreUsedUp(files, entries, e, st.names, next.names, base, f, subName);
      FoundIsUsedUp(files, entries, e, subName);
      OneMoreBelow(files, entries + [e], next.names, base, f, subName);
    }
  }

  lemma AllBelowCounter(files: Files, entries: seq<Entry>, st: State, base: string, subName: string)
    requires Counted(files, entries, st, subName)
    ensures AllBelow(files, entries, st.names, base, Counter(st.counter, base), subName)
  {
  }

  lemma OneMoreBelow(files: Files, entries: seq<Entry>, listed: seq<string>, base: string, c: nat, subName: string)
    requires AllBelow(files, entries, listed, base, c, subName) && UsedUp(files, entries, listed, base, c, subName)
    ensures AllBelow(files, entries, listed, base, c + 1, subName)
  {
  }

  lemma CounterAfter(st: State, e: Entry, base: string, subName: string)
    ensures Counter(Step(st, e, subName).counter, base)
         == if e.Entry? && BaseName(e, subName) == base && Taken(st.files, base, subName)
            then FreeFrom(st.files, base, Counter(st.counter, base)) + 1 else Counter(st.counter, base)
  {
  }

  lemma NamesGrow(st: State, e: Entry, subName: string)
    ensures st.names <= Step(st, e, subName).names
  {
  }

  /** The made-up name an entry tries is used up, whether it is saved or not. */
  lemma FoundIsUsedUp(files: Files, entries: seq<Entry>, e: Entry, subName: string)
    requires e.Entry? && Taken(Created(files, entries, subName).files, BaseName(e, subName), subName)
    ensures var st, base := Created(files, entries, subName), BaseName(e, subName);
            var f := FreeFrom(st.files, base, Counter(st.counter, base));
            UsedUp(files, entries + [e], Step(st, e, subName).names, base, f, subName)
  {
    var st, base := Created(files, entries, subName), BaseName(e, subName);
    var f := FreeFrom(st.files, base, Counter(st.counter, base));
    FinalNameReadOnly(st, base, subName);
    WastedGrows(files, entries, e, base, f, subName);
    hide Created, Candidate, FreeFrom, ReadOnly, Completed, ProfileOf, Wasted, Taken, Loaded;
  }

  lemma StepGives(files: Files, entries: seq<Entry>, st: State, e: Entry, subName: string, filed: seq<Entry>)
    requires OthersKept(files, st.files, subName) && ListedOwned(st, subName) && RestUntouched(files, st)
    requires Counted(files, entries, st, subName) && Given(files, entries, st, filed, subName)
    ensures Given(files, entries + [e], Step(st, e, subName), filed + if Fileable(e, subName) then [e] else [], subName)
  {
    var next, all := Step(st, e, subName), filed + if Fileable(e, subName) then [e] else [];
    hide Candidate, ReadOnly, Completed, ProfileOf, FreeFrom, Wasted, Counted, Occupied, AllBelow, Created;
    if e.Entry? {
      var base := BaseName(e, subName);
      var name := FinalName(st, base, subName);
      FinalNameReadOnly(st, base, subName);
      TakenStays(files, st, base, subName);
      FoundIsNext(files, entries, st, base, subName);
      assert Fileable(e, subName) ==> next.names == st.names + [name];
      assert !Fileable(e, subName) ==> next.names == st.names;
      assert if Taken(files, base, subName) then NextForm(files, entries, st.names, base, name, subName) else name == base;
      hide OthersKept, ListedOwned, RestUntouched, FinalName, BaseName, Taken, NextForm, Step, Fileable;
      GivenExtends(files, entries, st, next, e, subName, filed, all, name);
    } else {
      assert filed + [] == filed;
      hide OthersKept, ListedOwned, RestUntouched, FinalName, BaseName, Taken, NextForm, Fileable;
      GivenExtends(files, entries, st, next, e, subName, filed, filed, "");
    }
  }

  lemma NextFormStays(files: Files, entries: seq<Entry>, e: Entry, listed: seq<string>,
                      base: string, name: string, subName: string)
    requires NextForm(files, entries, listed, base, name, subName)
    ensures NextForm(files, entries + [e], listed, base, name, subName)
  {
    hide AllBelow, Candidate, Occupied;
    var c: nat :| name == Candidate(base, c) && !Occupied(files, listed, name)
      && AllBelow(files, entries, listed, base, c, subName);
    MoreUsedUp(files, entries, e, listed, listed, base, c, subName);
  }

  lemma GivenExtends(files: Files, entries: seq<Entry>, st: State, next: State, e: Entry, subName: string,
                     filed: seq<Entry>, all: seq<Entry>, name: string)
    requires Given(files, entries, st, filed, subName)
    requires if e.Entry? && Fileable(e, subName) then all == filed + [e] && next.names == st.names + [name]
             else all == filed && next.names == st.names
    requires e.Entry? && Fileable(e, subName) ==>
      var base := BaseName(e, subName);
      if Taken(files, base, subName) then NextForm(files, entries, st.names, base, name, subName) else name == base
    ensures Given(files, entries + [e], next, all, subName)
  {
    hide BaseName, Taken, NextForm, Fileable;
    forall k | 0 <= k < |all| ensures all[k].Entry? && GivenAt(files, entries + [e], next, all, subName, k) {
      var base := BaseName(all[k], subName);
      var earlier := next.names[..k];
      if k < |filed| {
        assert GivenAt(files, entries, st, filed, subName, k);
        assert earlier == st.names[..k] && next.names[k] == st.names[k];
      } else {
        assert earlier == st.names;
      }
      if Taken(files, base, subName) {
        NextFormStays(files, entries, e, earlier, base, next.names[k], subName);
      }
    }
  }

  lemma {:induction false} EntriesAreGiven(files: Files, entries: seq<Entry>, subName: string)
    ensures var st := Created(files, entries, subName);
            Counted(files, entries, st, subName) && Given(files, entries, st, Fileables(entries, subName), subName)
  {
    if entries != [] {
      var n := |entries| - 1;
      EntriesAreGiven(files, entries[..n], subName);
      CreationIsSafe(files, entries[..n], subName);
      var st := Created(files, entries[..n], subName);
      assert entries == entries[..n] + [entries[n]];
      hide Step, Counted, Given, Fileable, OthersKept, ListedOwned, RestUntouched;
      StepCounts(files, entries[..n], entries[n], subName);
      StepGives(files, entries[..n], st, entries[n], subName, Fileables(entries[..n], subName));
    } else {
      hide Candidate;
    }
  }

  /** Which name each filed entry gets, in every update. */
  lemma NameIsGiven(files: Files, entries: seq<Entry>, subName: string, k: nat)
    requires k < |Fileables(entries, subName)|
    ensures var st, filed := Created(files, entries, subName), Fileables(entries, subName);
            |filed| == |st.names| && GivenAt(files, entries, st, filed, subName, k)
  {
    hide GivenAt;
    EntriesAreGiven(files, entries, subName);
  }

  /** Which of the filed entries get the same name: the later one is called by
      the name that the earlier one got, its own or a made-up one. */
  lemma NamesRepeatExactly(files: Files, entries: seq<Entry>, subName: string, k: nat, l: nat)
    requires k < l < |Fileables(entries, subName)|
    ensures var st, filed := Created(files, entries, subName), Fileables(entries, subName);
            |filed| == |st.names| && (st.names[l] == st.names[k] <==> BaseName(filed[l], subName) == st.names[k])
  {
    var st, filed := Created(files, entries, subName), Fileables(entries, subName);
    NameIsGiven(files, entries, subName, k);
    NameIsGiven(files, entries, subName, l);
    CreationIsSafe(files, entries, subName);
    TakenStays(files, st, st.names[k], subName);
    assert st.names[k] in st.names && !Taken(st.files, st.names[k], subName);
    assert st.names[k] in st.names[..l];
    hide BaseName, Wasted, AllBelow, Candidate, Taken, OthersKept, ListedOwned, RestUntouched, Created, Fileables;
  }

  // ----- Which profiles stay -----

  /** The entries without what they say. */
  function Blank(entries: seq<Entry>): seq<Entry> {
    if entries == [] then []
    else
      var n := |entries| - 1;
      Blank(entries[..n]) + [if entries[n].Entry? then entries[n].(settings := "") else entries[n]]
  }

  /** The names an update gives, known before it. */
  function NamesGiven(files: Files, entries: seq<Entry>, subName: string): seq<string> {
    Created(files, Blank(entries), subName).names
  }

  /** Stores with the same loadable profiles of the same owners. */
  ghost predicate Alike(f: Files, g: Files) {
    forall n :: match (Loaded(f, n), Loaded(g, n))
                case (Some(p), Some(q)) => p.subscription == q.subscription
                case (None, None) => true
                case _ => false
  }

  lemma AlikeFindsSame(f: Files, g: Files, base: string, c: nat)
    requires Alike(f, g)
    ensures FreeFrom(f, base, c) == FreeFrom(g, base, c)
  {
  }

  lemma AlikeGrows(f: Files, g: Files, name: string, p: Profile, q: Profile)
    requires Alike(f, g) && p.subscription == q.subscription
    ensures Alike(f[name := Readable(p)], g[name := Readable(q)])
  {
    var f', g' := f[name := Readable(p)], g[name := Readable(q)];
    forall n | n != name ensures Loaded(f', n) == Loaded(f, n) && Loaded(g', n) == Loaded(g, n) {
    }
  }

  lemma StepAlike(s: State, t: State, e: Entry, settings: string, subName: string)
    requires e.Entry? && Alike(s.files, t.files) && s.counter == t.counter && s.names == t.names
    ensures var s', t' := Step(s, e, subName), Step(t, e.(settings := settings), subName);
            Alike(s'.files, t'.files) && s'.counter == t'.counter && s'.names == t'.names
  {
    var base := BaseName(e, subName);
    AlikeFindsSame(s.files, t.files, base, Counter(s.counter, base));
    assert BaseName(e.(settings := settings), subName) == base;
    assert Taken(s.files, base, subName) == Taken(t.files, base, subName);
    assert FinalName(s, base, subName) == FinalName(t, base, subName);
    AlikeGrows(s.files, t.files, FinalName(s, base, subName), Completed(ProfileOf(e, subName)),
               Completed(ProfileOf(e.(settings := settings), subName)));
    hide Candidate, FreeFrom, ReadOnly, BaseName, FinalName, Alike, Completed, ProfileOf, Taken;
  }

  /** What entries say does not bear on the names they get. */
  lemma {:induction false} NamesIgnoreSettings(files: Files, entries: seq<Entry>, subName: string)
    ensures var s, t := Created(files, entries, subName), Created(files, Blank(entries), subName);
            Alike(s.files, t.files) && s.counter == t.counter && s.names == t.names
  {
    if entries != [] {
      var n := |entries| - 1;
      NamesIgnoreSettings(files, entries[..n], subName);
      assert Blank(entries)[..n] == Blank(entries[..n]) && |Blank(entries)| == n + 1 by { BlankLength(entries[..n]); }
      hide Step, Alike;
      if entries[n].Entry? {
        StepAlike(Created(files, entries[..n], subName), Created(files, Blank(entries[..n]), subName),
                  entries[n], "", subName);
      } else {
        NothingFiled(Created(files, entries[..n], subName), subName);
        NothingFiled(Created(files, Blank(entries[..n]), subName), subName);
      }
    }
  }

  lemma NothingFiled(st: State, subName: string)
    ensures Step(st, Invalid, subName) == st
  {
  }

  lemma BlankLength(entries: seq<Entry>)
    ensures |Blank(entries)| == |entries|
  {
  }

  /** Every filed entry's profile is stored under its listed name. */
  ghost predicate AllStored(st: State, filed: seq<Entry>, subName: string)
    requires forall e :: e in filed ==> e.Entry?
  {
    && |filed| == |st.names|
    && forall k :: 0 <= k < |filed| ==> Stored(st, st.names[k], filed[k], subName)
  }

  predicate Stored(st: State, name: string, e: Entry, subName: string)
    requires e.Entry?
  {
    Loaded(st.files, name) == Some(Completed(ProfileOf(e, subName)))
  }

  /** An entry called by the name that an earlier one got says the same. */
  ghost predicate AllHarmless(names: seq<string>, filed: seq<Entry>, subName: string)
    requires |names| == |filed| && forall e :: e in filed ==> e.Entry?
  {
    forall k, l :: 0 <= k < l < |filed| && BaseName(filed[l], subName) == names[k] ==>
      filed[k].settings == filed[l].settings
  }

  /** The last position with the name at `k`. */
  function LastOf(names: seq<string>, k: nat, n: nat): (m: nat)
    requires k < n <= |names|
    ensures k <= m < n && names[m] == names[k]
    ensures forall l :: m < l < n ==> names[l] != names[k]
  {
    if names[n - 1] == names[k] then n - 1 else LastOf(names, k, n - 1)
  }

  lemma StoredTwiceIsSame(st: State, name: string, d: Entry, e: Entry, subName: string)
    requires d.Entry? && e.Entry?
    ensures Stored(st, name, d, subName) && Stored(st, name, e, subName) ==> d.settings == e.settings
    ensures d.settings == e.settings ==> (Stored(st, name, d, subName) <==> Stored(st, name, e, subName))
  {
  }

  /** When an update keeps every entry: all filed entries are stored, each under
      its listed name, if and only if each one that is called by the name an
      earlier one gets says the same as that. */
  lemma AllStoredExactly(files: Files, entries: seq<Entry>, subName: string)
    ensures |NamesGiven(files, entries, subName)| == |Fileables(entries, subName)|
    ensures AllStored(Created(files, entries, subName), Fileables(entries, subName), subName)
       <==> AllHarmless(NamesGiven(files, entries, subName), Fileables(entries, subName), subName)
  {
    var st, filed := Created(files, entries, subName), Fileables(entries, subName);
    EntriesAreFiled(files, entries, subName);
    NamesIgnoreSettings(files, entries, subName);
    assert |filed| == |st.names|;
    hide AllStand, Stored, BaseName, Created, Fileables;
    forall k: nat, l: nat | k < l < |filed|
      ensures st.names[l] == st.names[k] <==> BaseName(filed[l], subName) == st.names[k]
    {
      NamesRepeatExactly(files, entries, subName, k, l);
    }
    assert RepeatsByName(st, filed, subName);
    if AllHarmless(st.names, filed, subName) {
      HarmlessIsStored(st, filed, subName);
    }
    if AllStored(st, filed, subName) {
      StoredIsHarmless(st, filed, subName);
    }
  }

  /** Filed entries get the same name just when the later one is called by it. */
  ghost predicate RepeatsByName(st: State, filed: seq<Entry>, subName: string)
    requires |filed| == |st.names| && forall e :: e in filed ==> e.Entry?
  {
    forall k, l :: 0 <= k < l < |filed| ==>
      (st.names[l] == st.names[k] <==> BaseName(filed[l], subName) == st.names[k])
  }

  lemma StoredIsHarmless(st: State, filed: seq<Entry>, subName: string)
    requires |filed| == |st.names| && (forall e :: e in filed ==> e.Entry?) && RepeatsByName(st, filed, subName)
    requires AllStored(st, filed, subName)
    ensures AllHarmless(st.names, filed, subName)
  {
  }

  lemma HarmlessIsStored(st: State, filed: seq<Entry>, subName: string)
    requires |filed| == |st.names| && (forall e :: e in filed ==> e.Entry?) && RepeatsByName(st, filed, subName)
    requires AllStand(st, filed, subName) && AllHarmless(st.names, filed, subName)
    ensures AllStored(st, filed, subName)
  {
    hide BaseName, Stored, AllStand;
    forall k | 0 <= k < |filed| ensures Stored(st, st.names[k], filed[k], subName) {
      var m := LastOf(st.names, k, |filed|);
      LastIsStored(st, filed, subName, m);
      StoredTwiceIsSame(st, st.names[k], filed[k], filed[m], subName);
    }
  }

  lemma LastIsStored(st: State, filed: seq<Entry>, subName: string, m: nat)
    requires AllStand(st, filed, subName) && m < |filed|
    requires forall l :: m < l < |filed| ==> st.names[l] != st.names[m]
    ensures filed[m].Entry? && Stored(st, st.names[m], filed[m], subName)
  {
  }

  /** Two entries of one update with the same free name: both are listed, under
      one name, and only the second one's profile is stored. */
  lemma SameNameCollapses(files: Files, name: string, x: string, y: string, subName: string)
    requires name != "" && !ReadOnly(name) && !Taken(files, name, subName)
    ensures var st := Created(files, [Entry(name, x, true), Entry(name, y, true)], subName);
            st.names == [name, name] && Loaded(st.files, name) == Some(Completed(Profile(y, [], subName)))
  {
    var first, second, st := Entry(name, x, true), Entry(name, y, true), State(files, map[], []);
    hide Candidate, FreeFrom, ReadOnly;
    assert [first, second][..1] == [first] && [first][..0] == [];
    assert Created(files, [first], subName) == Step(st, first, subName);
    var once := Step(st, first, subName);
    assert once.names == [name] && !Taken(once.files, name, subName);
    assert Step(once, second, subName).names == [name] + [name];
  }

  /** The second way to lose a profile: somebody else holds the first entry's
      name, and the second entry is called by the name made up for the first. */
  lemma MadeUpNameCollapses(files: Files, name: string, x: string, y: string, subName: string)
    requires name != "" && !ReadOnly(name) && Taken(files, name, subName) && Loaded(files, Candidate(name, 0)).None?
    ensures var c := Candidate(name, 0);
            var st := Created(files, [Entry(name, x, true), Entry(c, y, true)], subName);
            name != c && st.names == [c, c] && Loaded(st.files, c) == Some(Completed(Profile(y, [], subName)))
  {
    var c := Candidate(name, 0);
    var first, second, st := Entry(name, x, true), Entry(c, y, true), State(files, map[], []);
    CandidateReadOnly(name, 0);
    CandidateNotEmpty(name, 0);
    hide Candidate, ReadOnly;
    assert [first, second][..1] == [first] && [first][..0] == [];
    assert Created(files, [first], subName) == Step(st, first, subName);
    var once := Step(st, first, subName);
    assert once.names == [c] && !Taken(once.files, c, subName);
    assert Step(once, second, subName).names == [c] + [c];
  }

  // ----- Whose files survive -----

  /** Not the subscription's own; a corrupt file names no owner. */
  predicate Foreign(f: File, subName: string) { f.Corrupt? || f.profile.subscription != subName }

  ghost predicate ForeignKept(before: Files, after: Files, subName: string) {
    forall n :: n in before && Foreign(before[n], subName) ==> n in after && after[n] == before[n]
  }

  ghost predicate AllNormal(entries: seq<Entry>) { forall e :: e in entries && e.Entry? ==> Normal(e.name) }

  /** The names under which an update may want to store something. */
  ghost predicate Reachable(files: Files, name: string, subName: string) {
    && !ReadOnly(name)
    && ((name != "" && Normal(name)) || name == subName
        || (Taken(files, subName, subName) && FormOf(name, subName)))
  }

  /** No list of entries makes the update touch a foreign file. */
  ghost predicate KeepsForeign(files: Files, subName: string) {
    forall entries :: AllNormal(entries) ==> ForeignKept(files, Created(files, entries, subName).files, subName)
  }

  /** Every foreign file within reach can be loaded. */
  ghost predicate ForeignLoads(files: Files, subName: string) {
    forall n :: n in files && Foreign(files[n], subName) && Reachable(files, n, subName) ==> files[n].Readable?
  }

  lemma CandidateIsNormal(base: string, c: nat)
    requires base != "" && Normal(base)
    ensures Normal(Candidate(base, c))
  {
  }

  /** Whatever name an entry gets is within reach. */
  lemma FinalNameIsReachable(files: Files, st: State, e: Entry, subName: string)
    requires OthersKept(files, st.files, subName) && ListedOwned(st, subName) && RestUntouched(files, st)
    requires e.Entry? && Normal(e.name) && !ReadOnly(FinalName(st, BaseName(e, subName), subName))
    ensures Reachable(files, FinalName(st, BaseName(e, subName), subName), subName)
  {
    hide Candidate, FreeFrom, ReadOnly, Normal;
    var base := BaseName(e, subName);
    TakenStays(files, st, base, subName);
    if Taken(st.files, base, subName) {
      var f := FreeFrom(st.files, base, Counter(st.counter, base));
      assert FormOf(Candidate(base, f), base);
      if e.name != "" {
        CandidateIsNormal(base, f);
        CandidateNotEmpty(base, f);
      }
    }
  }

  lemma CandidateNotEmpty(base: string, c: nat)
    ensures Candidate(base, c) != ""
  {
  }

  lemma StepKeepsForeign(files: Files, st: State, e: Entry, subName: string)
    requires OthersKept(files, st.files, subName) && ListedOwned(st, subName) && RestUntouched(files, st)
    requires ForeignLoads(files, subName) && ForeignKept(files, st.files, subName) && (e.Entry? ==> Normal(e.name))
    ensures ForeignKept(files, Step(st, e, subName).files, subName)
  {
    hide Candidate, FreeFrom, ReadOnly, Normal, OthersKept, ListedOwned, RestUntouched, Reachable;
    if Fileable(e, subName) {
      var name := FinalName(st, BaseName(e, subName), subName);
      FinalNameReadOnly(st, BaseName(e, subName), subName);
      FinalNameIsReachable(files, st, e, subName);
      FinalNameIsFree(st, BaseName(e, subName), subName);
      hide FinalName, BaseName;
    } else if e.Entry? {
      FinalNameReadOnly(st, BaseName(e, subName), subName);
      hide FinalName, BaseName;
    }
  }

  lemma {:induction false} LoadableIsKept(files: Files, entries: seq<Entry>, subName: string)
    requires ForeignLoads(files, subName) && AllNormal(entries)
    ensures ForeignKept(files, Created(files, entries, subName).files, subName)
  {
    if entries != [] {
      var n := |entries| - 1;
      assert entries[n] in entries && forall e :: e in entries[..n] ==> e in entries;
      LoadableIsKept(files, entries[..n], subName);
      CreationIsSafe(files, entries[..n], subName);
      StepKeepsForeign(files, Created(files, entries[..n], subName), entries[n], subName);
      hide Step, OthersKept, ListedOwned, RestUntouched, ForeignKept, ForeignLoads;
    }
  }

  /** One entry that is called like a file which cannot be loaded overwrites it,
      whoever owns it. */
  lemma UnloadableIsLost(files: Files, name: string, subName: string)
    requires name in files && !files[name].Readable? && !ReadOnly(name)
    requires (name != "" && Normal(name)) || name == subName
    ensures var entries := [Entry(if name == subName then "" else name, "", true)];
            && AllNormal(entries)
            && Created(files, entries, subName).files == files[name := Readable(Completed(Profile("", [], subName)))]
  {
  }

  /** The same nameless entry over and over. */
  function Nameless(n: nat): (es: seq<Entry>)
    ensures |es| == n && AllNormal(es)
  {
    if n == 0 then [] else Nameless(n - 1) + [Entry("", "", true)]
  }

  /** Every made-up name below the counter is occupied. */
  ghost predicate Filled(st: State, base: string) {
    forall d: nat :: d < Counter(st.counter, base) ==> Loaded(st.files, Candidate(base, d)).Some?
  }

  lemma NamelessNext(st: State, subName: string)
    requires Taken(st.files, subName, subName) && !ReadOnly(subName) && Filled(st, subName)
    ensures var next := Step(st, Entry("", "", true), subName);
            Filled(next, subName) && Counter(next.counter, subName) > Counter(st.counter, subName)
  {
    var e := Entry("", "", true);
    FinalNameReadOnly(st, subName, subName);
    hide Candidate, ReadOnly, Completed, ProfileOf;
    var f := FreeFrom(st.files, subName, Counter(st.counter, subName));
    var name, next := Candidate(subName, f), Step(st, e, subName);
    assert next.counter == st.counter[subName := f + 1];
    assert next.files == st.files[name := Readable(Completed(ProfileOf(e, subName)))];
    hide FreeFrom, Step;
    forall d: nat | d <= f ensures Loaded(next.files, Candidate(subName, d)).Some? {
      assert d < f ==> Loaded(st.files, Candidate(subName, d)).Some?;
    }
  }

  /** When somebody else holds the subscription's own name, nameless entries fill
      one made-up name after the other. */
  lemma {:induction false} NamelessFill(files: Files, n: nat, subName: string)
    requires Taken(files, subName, subName) && !ReadOnly(subName)
    ensures var st := Created(files, Nameless(n), subName);
            Filled(st, subName) && Counter(st.counter, subName) >= n
  {
    hide *;
    if n == 0 {
      NothingCreated(files, subName);
    } else {
      var st := Created(files, Nameless(n - 1), subName);
      NamelessFill(files, n - 1, subName);
      CreationIsSafe(files, Nameless(n - 1), subName);
      TakenStays(files, st, subName, subName);
      NamelessExtends(files, n, subName);
      NamelessNext(st, subName);
    }
  }

  lemma NothingCreated(files: Files, subName: string)
    ensures var st := Created(files, [], subName); Filled(st, subName) && Counter(st.counter, subName) == 0
    ensures Nameless(0) == []
  {
  }

  lemma NamelessExtends(files: Files, n: nat, subName: string)
    requires n > 0
    ensures Created(files, Nameless(n), subName)
         == Step(Created(files, Nameless(n - 1), subName), Entry("", "", true), subName)
  {
  }

  lemma UnloadableFormIsLost(files: Files, name: string, subName: string)
    requires name in files && !files[name].Readable? && !ReadOnly(name)
    requires Taken(files, subName, subName) && FormOf(name, subName)
    ensures exists entries :: AllNormal(entries) && Loaded(Created(files, entries, subName).files, name).Some?
  {
    var c: nat :| name == Candidate(subName, c);
    CandidateReadOnly(subName, c);
    NamelessFill(files, c + 1, subName);
    assert AllNormal(Nameless(c + 1));
    hide Created, Nameless, Candidate;
  }

  /** Exactly when no update can destroy somebody else's file: when every foreign
      file within its reach can be loaded. */
  lemma ForeignKeptExactly(files: Files, subName: string)
    ensures KeepsForeign(files, subName) <==> ForeignLoads(files, subName)
  {
    hide Created, AllNormal, Reachable;
    if ForeignLoads(files, subName) {
      forall entries | AllNormal(entries) ensures ForeignKept(files, Created(files, entries, subName).files, subName) {
        LoadableIsKept(files, entries, subName);
      }
    } else {
      var n :| n in files && Foreign(files[n], subName) && Reachable(files, n, subName) && !files[n].Readable?;
      UnloadableReachableIsLost(files, n, subName);
      var entries :| AllNormal(entries) && Loaded(Created(files, entries, subName).files, n).Some?;
      assert !ForeignKept(files, Created(files, entries, subName).files, subName);
    }
  }

  lemma UnloadableReachableIsLost(files: Files, name: string, subName: string)
    requires name in files && !files[name].Readable? && Reachable(files, name, subName)
    ensures exists entries :: AllNormal(entries) && Loaded(Created(files, entries, subName).files, name).Some?
  {
    hide Normal, Created, AllNormal, FormOf, ReadOnly;
    if (name != "" && Normal(name)) || name == subName {
      UnloadableIsLost(files, name, subName);
    } else {
      UnloadableFormIsLost(files, name, subName);
    }
  }
}
