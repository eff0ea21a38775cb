/**
 UCI as three layers (internal/uci/client.go): staged edits, committed files and
 the running system. Each layer is package -> section -> options; a section
 authored with SetSection merges into what is there.

 The anonymous sections the daemon names, like "@device[0]", are section names
 here.
 */
module Uci {
  import opened Wrappers
  import opened Lists

  datatype Value = Scalar(s: string) | Items(items: seq<string>)

  datatype Section = Section(kind: string, opts: map<string, Value>)

  type Package = map<string, Section>

  // The packages the daemon writes.
  datatype Pkg = Network | Wireless | System | Dhcp

  datatype Files = Files(network: Package, wireless: Package, system: Package, dhcp: Package) {
    function Of(pkg: Pkg): Package {
      match pkg
      case Network => network
      case Wireless => wireless
      case System => system
      case Dhcp => dhcp
    }

    function With(pkg: Pkg, p: Package): Files {
      match pkg
      case Network => this.(network := p)
      case Wireless => this.(wireless := p)
      case System => this.(system := p)
      case Dhcp => this.(dhcp := p)
    }
  }

  datatype Layers = Layers(staged: Files, committed: Files, running: Files)

  // CallFailed is a call that got no answer: any of them may.
  datatype UciError = NotFound | NotScalar | CallFailed

  // r succeeds only if p holds, and fails only for want of p or of an answer.
  predicate Decides<T>(r: Result<T, UciError>, p: bool) {
    (r.Ok? ==> p) && (r.Err? && r.error != CallFailed ==> !p)
  }

  // ----- options -----

  // A scalar option as Sections reports it: "" when unset or a list.
  function Text(s: Section, option: string): string {
    if option in s.opts && s.opts[option].Scalar? then s.opts[option].s else ""
  }

  // A list option; a scalar counts as a list of one.
  function ListOf(s: Section, option: string): seq<string> {
    if option !in s.opts then []
    else match s.opts[option]
      case Scalar(x) => [x]
      case Items(xs) => xs
  }

  // An empty list is written by deleting the option.
  function WithList(s: Section, option: string, items: seq<string>): Section {
    s.(opts := if items == [] then s.opts - {option} else s.opts[option := Items(items)])
  }

  function AddItem(s: Section, option: string, item: string): Section {
    if item in ListOf(s, option) then s else WithList(s, option, ListOf(s, option) + [item])
  }

  function DelItem(s: Section, option: string, item: string): Section {
    if item !in ListOf(s, option) then s else WithList(s, option, Without(ListOf(s, option), item))
  }

  // Everything but the option, which WithList leaves alone.
  function Rest(s: Section, option: string): Section {
    s.(opts := s.opts - {option})
  }

  lemma WithListMeaning(s: Section, option: string, items: seq<string>)
    ensures ListOf(WithList(s, option, items), option) == items
    ensures Rest(WithList(s, option, items), option) == Rest(s, option)
  {
  }

  // A section written by WithList is determined by the rest and the list.
  lemma WithListOver(s: Section, t: Section, option: string, items: seq<string>)
    requires Rest(s, option) == Rest(t, option)
    ensures WithList(s, option, items) == WithList(t, option, items)
  {
    assert forall k :: k in s.opts && k != option ==> k in Rest(s, option).opts && Rest(s, option).opts[k] == s.opts[k];
    assert forall k :: k in t.opts && k != option ==> k in Rest(t, option).opts && Rest(t, option).opts[k] == t.opts[k];
    assert s.opts[option := Items(items)] == t.opts[option := Items(items)];
  }

  lemma ItemOps(s: Section, option: string, item: string)
    ensures ListOf(DelItem(s, option, item), option) == Without(ListOf(s, option), item)
    ensures ListOf(AddItem(s, option, item), option)
         == if item in ListOf(s, option) then ListOf(s, option) else ListOf(s, option) + [item]
    ensures Rest(DelItem(s, option, item), option) == Rest(s, option)
    ensures Rest(AddItem(s, option, item), option) == Rest(s, option)
  {
    WithListMeaning(s, option, Without(ListOf(s, option), item));
    WithListMeaning(s, option, ListOf(s, option) + [item]);
    WithoutNothing(ListOf(s, option), item);
  }

  // Deleting and adding an item writes it once, at the end.
  lemma MoveToEnd(s: Section, option: string, item: string)
    ensures AddItem(DelItem(s, option, item), option, item)
         == WithList(s, option, Without(ListOf(s, option), item) + [item])
  {
    ItemOps(s, option, item);
    WithoutNothing(ListOf(s, option), item);
    WithListOver(DelItem(s, option, item), s, option, Without(ListOf(s, option), item) + [item]);
  }

  // ----- edits of a package -----

  // Setting options of a section: with a kind the section is authored, without
  // one it must exist.
  datatype Edit = Edit(section: string, kind: Option<string>, values: map<string, string>)

  function Scalars(values: map<string, string>): map<string, Value> {
    map k | k in values :: Scalar(values[k])
  }

  const NO_SECTION := Section("", map[])

  function At(p: Package, section: string): Section {
    if section in p then p[section] else NO_SECTION
  }

  function EditOne(p: Package, e: Edit): Package {
    var s := At(p, e.section);
    p[e.section := Section(if e.kind.Some? then e.kind.value else s.kind, s.opts + Scalars(e.values))]
  }

  function Edited(p: Package, es: seq<Edit>): Package {
    if es == [] then p else EditOne(Edited(p, es[..|es| - 1]), es[|es| - 1])
  }

  function Touched(es: seq<Edit>): set<string> {
    set e | e in es :: e.section
  }

  // What the edits leave in a section: the last value of every option they set.
  function OptionsSet(es: seq<Edit>, section: string): map<string, Value> {
    if es == [] then map[]
    else
      var before, e := OptionsSet(es[..|es| - 1], section), es[|es| - 1];
      if e.section == section then before + Scalars(e.values) else before
  }

  function KindSet(es: seq<Edit>, section: string): Option<string> {
    if es == [] then None
    else if es[|es| - 1].section == section && es[|es| - 1].kind.Some? then es[|es| - 1].kind
    else KindSet(es[..|es| - 1], section)
  }

  lemma TouchedSnoc(es: seq<Edit>, e: Edit)
    ensures Touched(es + [e]) == Touched(es) + {e.section}
  {
    assert forall f :: f in es + [e] <==> f in es || f == e;
  }

  lemma EditedSnoc(p: Package, es: seq<Edit>, e: Edit)
    ensures Edited(p, es + [e]) == EditOne(Edited(p, es), e)
  {
    assert (es + [e])[..|es|] == es;
  }

  lemma AddThenSet(p: Package, section: string, kind: string, values: map<string, string>)
    ensures EditOne(EditOne(p, Edit(section, Some(kind), map[])), Edit(section, None, values))
         == EditOne(p, Edit(section, Some(kind), values))
  {
    assert At(p, section).opts + Scalars(map[]) == At(p, section).opts;
  }

  lemma EditedFew(p: Package, e: Edit, f: Edit)
    ensures Edited(p, [e]) == EditOne(p, e)
    ensures Edited(p, [e, f]) == EditOne(EditOne(p, e), f)
  {
    assert [e][..0] == [] && [e, f][..1] == [e];
  }

  lemma {:induction false} EditedConcat(p: Package, a: seq<Edit>, b: seq<Edit>)
    ensures Edited(p, a + b) == Edited(Edited(p, a), b)
  {
    if b == [] {
      assert a + b == a;
    } else {
      assert (a + b)[..|a + b| - 1] == a + b[..|b| - 1];
      EditedConcat(p, a, b[..|b| - 1]);
    }
  }

  lemma TouchedLast(es: seq<Edit>)
    requires es != []
    ensures Touched(es) == Touched(es[..|es| - 1]) + {es[|es| - 1].section}
  {
    TouchedSnoc(es[..|es| - 1], es[|es| - 1]);
    assert es[..|es| - 1] + [es[|es| - 1]] == es;
  }

  lemma {:induction false} EditedUntouched(p: Package, es: seq<Edit>, section: string)
    requires section !in Touched(es)
    ensures (section in Edited(p, es) <==> section in p) && At(Edited(p, es), section) == At(p, section)
  {
    if es != [] {
      TouchedLast(es);
      EditedUntouched(p, es[..|es| - 1], section);
    }
  }

  lemma MergeThree(a: map<string, Value>, b: map<string, Value>, c: map<string, Value>)
    ensures a + b + c == a + (b + c) && a + b + map[] == a + b
  {
  }

  lemma EditOneAt(p: Package, e: Edit, section: string)
    ensures section in EditOne(p, e) <==> section in p || section == e.section
    ensures At(EditOne(p, e), section).opts == At(p, section).opts + (if section == e.section then Scalars(e.values) else map[])
    ensures At(EditOne(p, e), section).kind
         == if section == e.section && e.kind.Some? then e.kind.value else At(p, section).kind
  {
    assert At(p, section).opts + map[] == At(p, section).opts;
  }

  lemma {:induction false} EditedSection(p: Package, es: seq<Edit>, section: string)
    ensures section in Touched(es) ==> section in Edited(p, es)
    ensures At(Edited(p, es), section).opts == At(p, section).opts + OptionsSet(es, section)
    ensures At(Edited(p, es), section).kind
         == (if KindSet(es, section).Some? then KindSet(es, section).value else At(p, section).kind)
  {
    if es != [] {
      var init, e := es[..|es| - 1], es[|es| - 1];
      TouchedLast(es);
      EditedSection(p, init, section);
      EditOneAt(Edited(p, init), e, section);
      MergeThree(At(p, section).opts, OptionsSet(init, section), Scalars(e.values));
    }
  }

  // Edits section by section: untouched sections stay, touched ones merge.
  lemma EditedAt(p: Package, es: seq<Edit>, section: string)
    ensures section in Edited(p, es) <==> section in p || section in Touched(es)
    ensures section !in Touched(es) ==> At(Edited(p, es), section) == At(p, section)
    ensures At(Edited(p, es), section).opts == At(p, section).opts + OptionsSet(es, section)
    ensures At(Edited(p, es), section).kind
         == (if KindSet(es, section).Some? then KindSet(es, section).value else At(p, section).kind)
  {
    EditedSection(p, es, section);
    if section !in Touched(es) {
      EditedUntouched(p, es, section);
    }
  }

  lemma {:induction false} NothingSet(es: seq<Edit>, section: string)
    requires section !in Touched(es)
    ensures OptionsSet(es, section) == map[] && KindSet(es, section) == None
  {
    if es != [] {
      var init, e := es[..|es| - 1], es[|es| - 1];
      TouchedSnoc(init, e);
      assert init + [e] == es;
      NothingSet(init, section);
    }
  }

  // Edits and a change to a section they do not touch go in either order.
  lemma {:induction false} EditedElsewhere(p: Package, es: seq<Edit>, section: string, s: Section)
    requires section !in Touched(es)
    ensures Edited(p[section := s], es) == Edited(p, es)[section := s]
  {
    if es != [] {
      TouchedLast(es);
      EditedElsewhere(p, es[..|es| - 1], section, s);
    }
  }

  // Edits are lost when the sections they touch are deleted.
  lemma EditedThenDeleted(p: Package, es: seq<Edit>, gone: set<string>)
    requires Touched(es) <= gone
    ensures Edited(p, es) - gone == p - gone
  {
    forall n | n !in gone ensures (n in Edited(p, es) <==> n in p) && At(Edited(p, es), n) == At(p, n) {
      EditedUntouched(p, es, n);
    }
    assert forall n :: n in p && n !in gone ==> (Edited(p, es) - gone)[n] == At(Edited(p, es), n) == p[n];
  }

  // The edits have nothing left to change.
  ghost predicate Absorbed(p: Package, es: seq<Edit>) {
    forall n :: n in Touched(es) ==>
      && n in p
      && p[n].opts + OptionsSet(es, n) == p[n].opts
      && (KindSet(es, n).Some? ==> p[n].kind == KindSet(es, n).value)
  }

  lemma AbsorbedStays(p: Package, es: seq<Edit>)
    requires Absorbed(p, es)
    ensures Edited(p, es) == p
  {
    forall n ensures (n in Edited(p, es) <==> n in p) && At(Edited(p, es), n) == At(p, n) {
      EditedAt(p, es, n);
    }
    assert forall n :: n in p ==> Edited(p, es)[n] == At(Edited(p, es), n) == At(p, n) == p[n];
  }

  lemma EditedAbsorbed(p: Package, es: seq<Edit>)
    ensures Absorbed(Edited(p, es), es)
  {
    forall n | n in Touched(es)
      ensures n in Edited(p, es) && Edited(p, es)[n].opts + OptionsSet(es, n) == Edited(p, es)[n].opts
           && (KindSet(es, n).Some? ==> Edited(p, es)[n].kind == KindSet(es, n).value)
    {
      EditedAt(p, es, n);
    }
  }

  lemma EditedTwice(p: Package, es: seq<Edit>)
    ensures Edited(Edited(p, es), es) == Edited(p, es)
  {
    EditedAbsorbed(p, es);
    AbsorbedStays(Edited(p, es), es);
  }

  // ----- the layered store -----

  class Client {
    var staged: Files
    var committed: Files
    var running: Files

    ghost function Now(): Layers
      reads this
    {
      Layers(staged, committed, running)
    }

    constructor (boot: Files)
      ensures Now() == Layers(boot, boot, boot)
    {
      staged, committed, running := boot, boot, boot;
    }

    method Get(pkg: Pkg, section: string, option: string) returns (r: Result<string, UciError>)
      ensures r == GetFrom(staged.Of(pkg), section, option) || r == Err(CallFailed)
    {
      if * {
        return Err(CallFailed);
      }
      var p := staged.Of(pkg);
      if section !in p || option !in p[section].opts {
        return Err(NotFound);
      }
      match p[section].opts[option]
      case Scalar(s) => r := Ok(s);
      case Items(items) => r := Err(NotScalar);
    }

    method Sections(pkg: Pkg) returns (r: Result<Package, UciError>)
      ensures r == Ok(staged.Of(pkg)) || r == Err(CallFailed)
    {
      if * {
        return Err(CallFailed);
      }
      r := Ok(staged.Of(pkg));
    }

    // The `set` call.
    method Write(pkg: Pkg, section: string, values: map<string, string>) returns (r: Result<(), UciError>)
      modifies this
      ensures Decides(r, section in old(staged.Of(pkg)))
      ensures Now() == if r.Ok? then Staging(old(Now()), pkg, EditOne(old(staged.Of(pkg)), Edit(section, None, values)))
                       else old(Now())
    {
      if * {
        return Err(CallFailed);
      }
      var p := staged.Of(pkg);
      if section !in p {
        return Err(NotFound);
      }
      var s := p[section];
      staged := staged.With(pkg, p[section := s.(opts := s.opts + Scalars(values))]);
      r := Ok(());
    }

    // The `add` call of a named section.
    method Add(pkg: Pkg, section: string, kind: string) returns (r: Result<(), UciError>)
      modifies this
      ensures Decides(r, true)
      ensures Now() == if r.Ok? then Staging(old(Now()), pkg, EditOne(old(staged.Of(pkg)), Edit(section, Some(kind), map[])))
                       else old(Now())
    {
      if * {
        return Err(CallFailed);
      }
      var s := At(staged.Of(pkg), section);
      assert s.opts + Scalars(map[]) == s.opts;
      staged := staged.With(pkg, staged.Of(pkg)[section := s.(kind := kind)]);
      r := Ok(());
    }

    method Set(pkg: Pkg, section: string, option: string, value: string) returns (r: Result<(), UciError>)
      modifies this
      ensures Decides(r, section in old(staged.Of(pkg)))
      ensures Now() == if r.Ok? then Staging(old(Now()), pkg, EditOne(old(staged.Of(pkg)), Edit(section, None, map[option := value])))
                       else old(Now())
    {
      r := Write(pkg, section, map[option := value]);
    }

    // `add` the named section, then `set` its options.
    method SetSection(pkg: Pkg, section: string, kind: string, values: map<string, string>)
      returns (r: Result<(), UciError>)
      modifies this
      ensures Decides(r, true)
      ensures r.Ok? ==> Now() == Staging(old(Now()), pkg, EditOne(old(staged.Of(pkg)), Edit(section, Some(kind), values)))
      ensures r.Err? ==> (Now() == old(Now())
                          || Now() == Staging(old(Now()), pkg, EditOne(old(staged.Of(pkg)), Edit(section, Some(kind), map[]))))
    {
      r := Add(pkg, section, kind);
      if r.Err? {
        return r;
      }
      AddThenSet(old(staged.Of(pkg)), section, kind, values);
      r := Write(pkg, section, values);
    }

    // Deleting a section that is not there is an error.
    method Delete(pkg: Pkg, section: string) returns (r: Result<(), UciError>)
      modifies this
      ensures Decides(r, section in old(staged.Of(pkg)))
      ensures Now() == if r.Ok? then Staging(old(Now()), pkg, old(staged.Of(pkg)) - {section}) else old(Now())
    {
      if * {
        return Err(CallFailed);
      }
      if section !in staged.Of(pkg) {
        return Err(NotFound);
      }
      staged := staged.With(pkg, staged.Of(pkg) - {section});
      r := Ok(());
    }

    method GetList(pkg: Pkg, section: string, option: string) returns (r: Result<seq<string>, UciError>)
      ensures Decides(r, section in staged.Of(pkg))
      ensures r.Ok? ==> r.value == ListOf(staged.Of(pkg)[section], option)
    {
      if * {
        return Err(CallFailed);
      }
      if section !in staged.Of(pkg) {
        return Err(NotFound);
      }
      r := Ok(ListOf(staged.Of(pkg)[section], option));
    }

    method AddListItem(pkg: Pkg, section: string, option: string, item: string) returns (r: Result<(), UciError>)
      modifies this
      ensures Decides(r, section in old(staged.Of(pkg)))
      ensures r.Ok? ==> Now() == Staging(old(Now()), pkg, old(staged.Of(pkg))[section := AddItem(old(staged.Of(pkg))[section], option, item)])
      ensures r.Err? ==> Now() == old(Now())
    {
      var items := GetList(pkg, section, option);
      if items.Err? {
        return Err(items.error);
      }
      for i := 0 to |items.value|
        invariant item !in items.value[..i] && Now() == old(Now())
      {
        if items.value[i] == item {
          assert staged.Of(pkg)[section := staged.Of(pkg)[section]] == staged.Of(pkg);
          return Ok(());
        }
      }
      r := SetList(pkg, section, option, items.value + [item]);
    }

    method DelListItem(pkg: Pkg, section: string, option: string, item: string) returns (r: Result<(), UciError>)
      modifies this
      ensures Decides(r, section in old(staged.Of(pkg)))
      ensures r.Ok? ==> Now() == Staging(old(Now()), pkg, old(staged.Of(pkg))[section := DelItem(old(staged.Of(pkg))[section], option, item)])
      ensures r.Err? ==> Now() == old(Now())
    {
      var got := GetList(pkg, section, option);
      if got.Err? {
        return Err(got.error);
      }
      var items := got.value;
      var out: seq<string> := [];
      var removed := false;
      for i := 0 to |items|
        invariant out == Without(items[..i], item) && (removed <==> item in items[..i])
        invariant Now() == old(Now())
      {
        assert items[..i + 1] == items[..i] + [items[i]];
        MinusSnoc(items[..i], items[i], {item});
        if items[i] == item {
          removed := true;
        } else {
          out := out + [items[i]];
        }
      }
      assert items[..|items|] == items;
      if !removed {
        assert staged.Of(pkg)[section := staged.Of(pkg)[section]] == staged.Of(pkg);
        return Ok(());
      }
      r := SetList(pkg, section, option, out);
    }

    method SetList(pkg: Pkg, section: string, option: string, items: seq<string>) returns (r: Result<(), UciError>)
      requires section in staged.Of(pkg)
      modifies this
      ensures Decides(r, true)
      ensures Now() == if r.Ok? then Staging(old(Now()), pkg, old(staged.Of(pkg))[section := WithList(old(staged.Of(pkg))[section], option, items)])
                       else old(Now())
    {
      if * {
        return Err(CallFailed);
      }
      var s := staged.Of(pkg)[section];
      if items == [] {
        s := s.(opts := s.opts - {option});
      } else {
        s := s.(opts := s.opts[option := Items(items)]);
      }
      staged := staged.With(pkg, staged.Of(pkg)[section := s]);
      r := Ok(());
    }

    method Commit(pkg: Pkg) returns (r: Result<(), UciError>)
      modifies this
      ensures Decides(r, true)
      ensures Now() == if r.Ok? then Committing(old(Now()), pkg) else old(Now())
    {
      if * {
        return Err(CallFailed);
      }
      committed := committed.With(pkg, staged.Of(pkg));
      r := Ok(());
    }

    // The network is reloaded, then the radios and the rest; either may fail.
    method Reload() returns (r: Result<(), UciError>)
      modifies this
      ensures Decides(r, true)
      ensures r.Ok? ==> Now() == Reloading(old(Now()))
      ensures r.Err? ==> (Now() == old(Now()) || Now() == HalfReloading(old(Now())))
    {
      if * {
        return Err(CallFailed);
      }
      running := running.(network := committed.network);
      if * {
        return Err(CallFailed);
      }
      running := committed;
      r := Ok(());
    }
  }

  function GetFrom(p: Package, section: string, option: string): Result<string, UciError> {
    if section !in p || option !in p[section].opts then Err(NotFound)
    else match p[section].opts[option]
      case Scalar(s) => Ok(s)
      case Items(items) => Err(NotScalar)
  }

  function Staging(l: Layers, pkg: Pkg, p: Package): Layers {
    l.(staged := l.staged.With(pkg, p))
  }

  function Committing(l: Layers, pkg: Pkg): Layers {
    l.(committed := l.committed.With(pkg, l.staged.Of(pkg)))
  }

  function Reloading(l: Layers): Layers {
    l.(running := l.committed)
  }

  // Only the network has been reloaded.
  function HalfReloading(l: Layers): Layers {
    l.(running := l.running.(network := l.committed.network))
  }

  // Packages committed in this order.
  function CommitEach(l: Layers, pkgs: seq<Pkg>): Layers {
    if pkgs == [] then l else Committing(CommitEach(l, pkgs[..|pkgs| - 1]), pkgs[|pkgs| - 1])
  }

  lemma CommitEachFew(l: Layers, a: Pkg, b: Pkg, c: Pkg)
    ensures CommitEach(l, [a]) == Committing(l, a)
    ensures CommitEach(l, [a, b]) == Committing(Committing(l, a), b)
    ensures CommitEach(l, [a, b, c]) == Committing(Committing(Committing(l, a), b), c)
  {
    assert [a][..0] == [] && [a, b][..1] == [a] && [a, b, c][..2] == [a, b];
  }

  lemma CommitEachStep(l: Layers, pkgs: seq<Pkg>, k: nat)
    requires k < |pkgs|
    ensures CommitEach(l, pkgs[..k + 1]) == Committing(CommitEach(l, pkgs[..k]), pkgs[k])
  {
    assert pkgs[..k + 1][..k] == pkgs[..k];
  }

  // Committing these packages and reloading, stopped on the way.
  ghost predicate Interrupted(l: Layers, pkgs: seq<Pkg>, now: Layers) {
    (exists k :: 0 <= k <= |pkgs| && now == CommitEach(l, pkgs[..k])) || now == HalfReloading(CommitEach(l, pkgs))
  }
}
