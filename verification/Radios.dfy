/**
 Choosing radios by band (internal/profiles/manager.go): the lowest-numbered
 wifi-device of a band, and the client APs a profile asks for.
 */
module Radios {
  import opened Uci
  import Strings = Text
  import opened Sorting

  const AP := "omm_ap"

  // The name of a secondary client AP's section.
  function SecondaryAP(band: string): string {
    AP + "_" + band
  }

  predicate IsSecondary(name: string) {
    AP + "_" <= name
  }

  function OfBand(w: Package, band: string): set<string> {
    set n | n in w && w[n].kind == "wifi-device" && Text(w[n], "band") == band
  }

  ghost predicate IsLowest(r: string, names: set<string>) {
    r in names && forall n :: n in names && n != r ==> LexLess(r, n)
  }

  lemma LowestExists(names: set<string>) returns (r: string)
    requires names != {}
    ensures IsLowest(r, names)
  {
    LexIsStrictOrder(names);
    r := LeastExists(LexLess, names);
  }

  lemma LowestIsUnique(r: string, s: string, names: set<string>)
    requires IsLowest(r, names) && IsLowest(s, names)
    ensures r == s
  {
    if r != s {
      LexTransitive(r, s, r);
      LexIrreflexive(r);
    }
  }

  // The lowest radio of a band, or "".
  ghost function Lowest(w: Package, band: string): (r: string)
    ensures OfBand(w, band) != {} ==> IsLowest(r, OfBand(w, band))
    ensures OfBand(w, band) == {} ==> r == ""
  {
    if OfBand(w, band) == {} then ""
    else
      assert exists r :: IsLowest(r, OfBand(w, band)) by { var r := LowestExists(OfBand(w, band)); }
      var r :| IsLowest(r, OfBand(w, band));
      r
  }

  // The scan keeps the lowest of those seen so far, in whatever order the
  // sections come. Section names are not empty.
  method LowestRadioForBand(sections: Package, band: string) returns (found: string)
    requires "" !in sections
    ensures found == Lowest(sections, band)
  {
    found := "";
    var left := sections.Keys;
    while left != {}
      invariant left <= sections.Keys
      invariant found == "" ==> OfBand(sections, band) <= left
      invariant found != "" ==> IsLowest(found, OfBand(sections, band) - left)
      decreases left
    {
      var name :| name in left;
      if sections[name].kind == "wifi-device" && Text(sections[name], "band") == band {
        if found == "" || LexLess(name, found) {
          if found != "" {
            LowerStill(name, found, OfBand(sections, band) - left);
          }
          found := name;
        } else {
          LexTotal(name, found);
        }
      }
      left := left - {name};
    }
    assert OfBand(sections, band) - {} == OfBand(sections, band);
    if found != "" {
      LowestIsUnique(found, Lowest(sections, band), OfBand(sections, band));
    }
  }

  lemma LowerStill(name: string, found: string, names: set<string>)
    requires IsLowest(found, names) && LexLess(name, found)
    ensures IsLowest(name, names + {name})
  {
    forall n | n in names && n != found ensures LexLess(name, n) {
      LexTransitive(name, found, n);
    }
  }

  // ----- the client APs -----

  datatype Target = Target(section: string, radio: string)

  // strings.ToLower is the platform's: any function at all.
  function Cleaned(lower: string -> string, band: string): string {
    lower(Strings.TrimSpace(band))
  }

  function RadiosOf(ts: seq<Target>): set<string> {
    set t | t in ts :: t.radio
  }

  function SectionsOf(ts: seq<Target>): set<string> {
    set t | t in ts :: t.section
  }

  // One AP on apRadio, and one more for each band that has a radio of its own.
  ghost function Targets(lower: string -> string, w: Package, bands: seq<string>, apRadio: string): seq<Target> {
    if bands == [] then [Target(AP, apRadio)]
    else
      var before, band := Targets(lower, w, bands[..|bands| - 1], apRadio), Cleaned(lower, bands[|bands| - 1]);
      var radio := Lowest(w, band);
      if band == "" || radio == "" || radio in RadiosOf(before) then before
      else before + [Target(SecondaryAP(band), radio)]
  }

  method ResolveTargets(lower: string -> string, sections: Package, bands: seq<string>, apRadio: string) returns (ts: seq<Target>)
    requires "" !in sections
    ensures ts == Targets(lower, sections, bands, apRadio)
  {
    ts := [Target(AP, apRadio)];
    var used := {apRadio};
    assert bands[..0] == [];
    for i := 0 to |bands|
      invariant ts == Targets(lower, sections, bands[..i], apRadio)
      invariant used == RadiosOf(ts)
    {
      assert bands[..i + 1][..i] == bands[..i];
      var band := Cleaned(lower, bands[i]);
      if band != "" {
        var radio := LowestRadioForBand(sections, band);
        if radio != "" && radio !in used {
          used := used + {radio};
          RadiosSnoc(ts, Target(SecondaryAP(band), radio));
          ts := ts + [Target(SecondaryAP(band), radio)];
        }
      }
    }
    assert bands[..|bands|] == bands;
  }

  lemma RadiosSnoc(ts: seq<Target>, t: Target)
    ensures RadiosOf(ts + [t]) == RadiosOf(ts) + {t.radio}
    ensures SectionsOf(ts + [t]) == SectionsOf(ts) + {t.section}
  {
    assert forall u :: u in ts + [t] <==> u in ts || u == t;
  }

  // A secondary target of these bands.
  ghost predicate Serves(lower: string -> string, w: Package, bands: seq<string>, t: Target) {
    exists b :: b in bands && Cleaned(lower, b) != "" && t == Target(SecondaryAP(Cleaned(lower, b)), Lowest(w, Cleaned(lower, b)))
  }

  lemma {:induction false} TargetsShape(lower: string -> string, w: Package, bands: seq<string>, apRadio: string)
    ensures var ts := Targets(lower, w, bands, apRadio);
      && |ts| > 0 && ts[0] == Target(AP, apRadio)
      && (forall i :: 0 < i < |ts| ==> Serves(lower, w, bands, ts[i]) && ts[i].radio != "")
      && (forall i, j :: 0 <= i < j < |ts| ==> ts[i].radio != ts[j].radio)
  {
    if bands != [] {
      var init, band := bands[..|bands| - 1], Cleaned(lower, bands[|bands| - 1]);
      assert bands == init + [bands[|bands| - 1]];
      TargetsShape(lower, w, init, apRadio);
      var before, ts := Targets(lower, w, init, apRadio), Targets(lower, w, bands, apRadio);
      forall i | 0 < i < |ts| ensures Serves(lower, w, bands, ts[i]) && ts[i].radio != "" {
        if i < |before| {
          assert Serves(lower, w, init, before[i]);
        } else {
          assert bands[|bands| - 1] in bands;
        }
      }
      forall i, j | 0 <= i < j < |ts| ensures ts[i].radio != ts[j].radio {
        if j == |before| {
          assert before[i] in before;
        }
      }
    }
  }

  // Every band asked for that has a radio is served on its lowest one.
  lemma {:induction false} TargetsCover(lower: string -> string, w: Package, bands: seq<string>, apRadio: string, b: string)
    requires b in bands && Cleaned(lower, b) != "" && Lowest(w, Cleaned(lower, b)) != ""
    ensures Lowest(w, Cleaned(lower, b)) in RadiosOf(Targets(lower, w, bands, apRadio))
  {
    var init, last := bands[..|bands| - 1], bands[|bands| - 1];
    assert bands == init + [last];
    var before, band := Targets(lower, w, init, apRadio), Cleaned(lower, last);
    RadiosSnoc(before, Target(SecondaryAP(band), Lowest(w, band)));
    if b != last {
      TargetsCover(lower, w, init, apRadio, b);
    }
  }

  lemma SecondaryInjective(a: string, b: string)
    requires SecondaryAP(a) == SecondaryAP(b)
    ensures a == b
  {
    assert SecondaryAP(a)[7..] == a && SecondaryAP(b)[7..] == b;
  }

  lemma SecondaryNames(band: string)
    ensures IsSecondary(SecondaryAP(band)) && SecondaryAP(band) != AP && !IsSecondary(AP)
  {
    assert SecondaryAP(band)[..7] == AP + "_";
    assert |SecondaryAP(band)| == 7 + |band|;
  }

  // Main result. No two APs share a radio or a section: the section name decides
  // the band, and the band decides the radio.
  lemma TargetsDistinct(lower: string -> string, w: Package, bands: seq<string>, apRadio: string, i: nat, j: nat)
    requires i < j < |Targets(lower, w, bands, apRadio)|
    ensures var ts := Targets(lower, w, bands, apRadio);
      ts[i].radio != ts[j].radio && ts[i].section != ts[j].section && IsSecondary(ts[j].section)
  {
    var ts := Targets(lower, w, bands, apRadio);
    TargetsShape(lower, w, bands, apRadio);
    assert Serves(lower, w, bands, ts[j]);
    var b :| b in bands && Cleaned(lower, b) != "" && ts[j] == Target(SecondaryAP(Cleaned(lower, b)), Lowest(w, Cleaned(lower, b)));
    SecondaryNames(Cleaned(lower, b));
    if i > 0 && ts[i].section == ts[j].section {
      assert Serves(lower, w, bands, ts[i]);
      var a :| a in bands && Cleaned(lower, a) != "" && ts[i] == Target(SecondaryAP(Cleaned(lower, a)), Lowest(w, Cleaned(lower, a)));
      SecondaryInjective(Cleaned(lower, a), Cleaned(lower, b));
    }
  }

  // The choices depend only on which wifi-devices have which band.
  ghost predicate SameBands(w: Package, v: Package) {
    forall band :: OfBand(w, band) == OfBand(v, band)
  }

  lemma SameLowest(w: Package, v: Package, band: string)
    requires SameBands(w, v)
    ensures Lowest(w, band) == Lowest(v, band)
  {
    if OfBand(w, band) != {} {
      assert OfBand(w, band) == OfBand(v, band);
      LowestIsUnique(Lowest(w, band), Lowest(v, band), OfBand(w, band));
    }
  }

  lemma {:induction false} SameTargets(lower: string -> string, w: Package, v: Package, bands: seq<string>, apRadio: string)
    requires SameBands(w, v)
    ensures Targets(lower, w, bands, apRadio) == Targets(lower, v, bands, apRadio)
  {
    if bands != [] {
      SameTargets(lower, w, v, bands[..|bands| - 1], apRadio);
      SameLowest(w, v, Cleaned(lower, bands[|bands| - 1]));
    }
  }
}
