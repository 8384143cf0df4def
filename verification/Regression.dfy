/**
  Which specs a check runs: its own, those of every other requirement whose last
  verdict was a pass, and one canary per requirement family that has passed before.
*/
module Regression {
  import opened Lex

  /** The regression map: requirement tag to spec files. */
  type SpecMap = map<string, seq<string>>

  /** The last exit code recorded for each tag. */
  type Status = map<string, int>

  predicate Passed(status: Status, tag: string) {
    tag in status && status[tag] == 0
  }

  // ----- Families -----

  /** How many digits `s` starts with. */
  function DigitRun(s: string): (n: nat)
    ensures n <= |s|
  {
    if s != "" && '0' <= s[0] <= '9' then 1 + DigitRun(s[1..]) else 0
  }

  const REQ := "REQ-"

  /** The top-level family of a tag: `REQ-` and the number after it, else the tag itself. */
  function Family(tag: string): string {
    if REQ <= tag && DigitRun(tag[|REQ|..]) > 0 then tag[..|REQ| + DigitRun(tag[|REQ|..])] else tag
  }

  lemma {:induction false} DigitRunIsLongest(s: string)
    ensures forall i :: 0 <= i < DigitRun(s) ==> '0' <= s[i] <= '9'
    ensures DigitRun(s) < |s| ==> !('0' <= s[DigitRun(s)] <= '9')
  {
    if s != "" && '0' <= s[0] <= '9' {
      DigitRunIsLongest(s[1..]);
    }
  }

  /** A family is a prefix of its tags and its own family: tags of one family share it. */
  lemma {:induction false} FamilyIsPrefix(tag: string)
    ensures Family(tag) <= tag && Family(Family(tag)) == Family(tag)
  {
    var rest := tag[if REQ <= tag then |REQ| else 0..];
    var n := DigitRun(rest);
    if REQ <= tag && n > 0 {
      DigitRunIsLongest(rest);
      DigitRunOfPrefix(rest);
      assert Family(tag)[|REQ|..] == rest[..n];
    }
  }

  lemma {:induction false} DigitRunOfPrefix(s: string)
    ensures DigitRun(s[..DigitRun(s)]) == DigitRun(s)
  {
    if s != "" && '0' <= s[0] <= '9' {
      DigitRunOfPrefix(s[1..]);
      assert s[..DigitRun(s)][1..] == s[1..][..DigitRun(s[1..])];
    }
  }

  predicate IsDigit(c: char) {
    '0' <= c <= '9'
  }

  predicate IsNumber(ds: string) {
    ds != "" && forall i :: 0 <= i < |ds| ==> IsDigit(ds[i])
  }

  /** The tag is `REQ-`, the number `ds`, and then anything that does not go on with a digit. */
  predicate HasNumber(tag: string, ds: string) {
    IsNumber(ds) && "REQ-" + ds <= tag && (|tag| > 4 + |ds| ==> !IsDigit(tag[4 + |ds|]))
  }

  lemma {:induction false} DigitRunIs(s: string, n: nat)
    requires n <= |s| && (forall i :: 0 <= i < n ==> IsDigit(s[i])) && (n < |s| ==> !IsDigit(s[n]))
    ensures DigitRun(s) == n
  {
    if n > 0 {
      assert IsDigit(s[0]);
      DigitRunIs(s[1..], n - 1);
    }
  }

  /** A tag with a number belongs to `REQ-` and that number. */
  lemma {:induction false} FamilyOfNumbered(tag: string, ds: string)
    requires HasNumber(tag, ds)
    ensures Family(tag) == "REQ-" + ds
  {
    var rest := tag[4..];
    assert tag[..4] == "REQ-" && rest[..|ds|] == ds;
    forall i | 0 <= i < |ds| ensures IsDigit(rest[i]) {
      assert rest[i] == ds[i];
    }
    DigitRunIs(rest, |ds|);
    assert tag[..4 + |ds|] == "REQ-" + ds;
  }

  /** Any other tag is a family of its own. */
  lemma {:induction false} FamilyOfOther(tag: string)
    requires !("REQ-" <= tag && |tag| > 4 && IsDigit(tag[4]))
    ensures Family(tag) == tag
  {
  }

  lemma NumberOf(tag: string) returns (ds: string)
    requires "REQ-" <= tag && |tag| > 4 && IsDigit(tag[4])
    ensures HasNumber(tag, ds)
  {
    var n := DigitRun(tag[4..]);
    DigitRunIsLongest(tag[4..]);
    ds := tag[4..][..n];
    assert tag[..4 + n] == "REQ-" + ds;
  }

  /** The family `REQ-n` is exactly the tags with the number n. */
  lemma {:induction false} FamilyIsNumber(tag: string, ds: string)
    requires IsNumber(ds)
    ensures Family(tag) == "REQ-" + ds <==> HasNumber(tag, ds)
  {
    assert ("REQ-" + ds)[4..] == ds;
    if HasNumber(tag, ds) {
      FamilyOfNumbered(tag, ds);
    }
    if "REQ-" <= tag && |tag| > 4 && IsDigit(tag[4]) {
      var own := NumberOf(tag);
      FamilyOfNumbered(tag, own);
      assert ("REQ-" + own)[4..] == own;
    } else {
      FamilyOfOther(tag);
      assert ("REQ-" + ds)[4] == ds[0];
    }
  }

  /** Two numbered tags share a family if and only if their first numbers are the same text. */
  lemma {:induction false} SameFamilyIff(tag: string, ds: string, tag': string, ds': string)
    requires HasNumber(tag, ds) && HasNumber(tag', ds')
    ensures Family(tag) == Family(tag') <==> ds == ds'
  {
    FamilyOfNumbered(tag, ds);
    FamilyOfNumbered(tag', ds');
    assert ("REQ-" + ds)[4..] == ds && ("REQ-" + ds')[4..] == ds';
  }

  // The rest holds for any grouping of the tags into families.

  predicate Earned(family: string -> string, m: SpecMap, status: Status, fam: string) {
    exists t :: t in m && family(t) == fam && Passed(status, t)
  }

  /** `t` may carry the canary of its family in a check of `tag`. */
  predicate CanRide(m: SpecMap, tag: string, t: string) {
    t in m && t != tag && m[t] != []
  }

  /** The first such tag of the family. */
  predicate IsRide(family: string -> string, m: SpecMap, tag: string, fam: string, t: string) {
    && CanRide(m, tag, t) && family(t) == fam
    && forall u :: u in m && CanRide(m, tag, u) && family(u) == fam ==> u == t || Less(t, u)
  }

  // ----- What is re-run -----

  predicate EarlierSpec(m: SpecMap, tag: string, status: Status, x: string) {
    exists t :: t in m && t != tag && Passed(status, t) && x in m[t]
  }

  predicate CanarySpec(family: string -> string, m: SpecMap, tag: string, status: Status, x: string) {
    exists t :: t in m && IsRide(family, m, tag, family(t), t) && Earned(family, m, status, family(t)) && x == m[t][0]
  }

  predicate Rerun(family: string -> string, m: SpecMap, tag: string, status: Status, x: string) {
    EarlierSpec(m, tag, status, x) || CanarySpec(family, m, tag, status, x)
  }

  // ----- The code -----

  function OfFamily(family: string -> string, keys: seq<string>, fam: string): (r: seq<string>)
    ensures forall x :: x in r <==> x in keys && family(x) == fam
  {
    if keys == [] then []
    else OfFamily(family, keys[..|keys| - 1], fam) + (if family(keys[|keys| - 1]) == fam then [keys[|keys| - 1]] else [])
  }

  lemma {:induction false} OfFamilyAscends(family: string -> string, keys: seq<string>, fam: string)
    requires Ascending(keys)
    ensures Ascending(OfFamily(family, keys, fam))
  {
    if keys != [] {
      var front, last := keys[..|keys| - 1], keys[|keys| - 1];
      OfFamilyAscends(family, front, fam);
      forall x | x in OfFamily(family, front, fam) ensures Less(x, last) {
        var i :| 0 <= i < |front| && front[i] == x;
        assert keys[i] == x && keys[|keys| - 1] == last;
      }
    }
  }

  /** The dictionary of families: the sorted tags of each, and its keys in order. */
  ghost predicate IsFamilies(family: string -> string, families: map<string, seq<string>>, order: seq<string>,
                             keys: seq<string>)
  {
    && (forall fam :: fam in order <==> fam in families)
    && (forall fam :: fam in families ==> families[fam] == OfFamily(family, keys, fam))
    && (forall t :: t in keys ==> family(t) in families)
  }

  lemma OneMoreTag(family: string -> string, keys: seq<string>, t: string, fam: string)
    ensures OfFamily(family, keys + [t], fam) == OfFamily(family, keys, fam) + (if family(t) == fam then [t] else [])
  {
  }

  lemma FamiliesGrow(family: string -> string, families: map<string, seq<string>>, order: seq<string>,
                     order': seq<string>, keys: seq<string>, t: string)
    requires IsFamilies(family, families, order, keys)
    requires forall fam :: fam in order' <==> fam in order || fam == family(t)
    ensures IsFamilies(family, families[family(t) := OfFamily(family, keys + [t], family(t))], order', keys + [t])
  {
  }

  /** `families.setdefault(fam, []).append(tag)`. */
  method AddTag(family: string -> string, families: map<string, seq<string>>, order: seq<string>,
                t: string, ghost keys: seq<string>)
    returns (families': map<string, seq<string>>, order': seq<string>)
    requires IsFamilies(family, families, order, keys)
    ensures IsFamilies(family, families', order', keys + [t])
  {
    var fam := family(t);
    OneMoreTag(family, keys, t, fam);
    if fam in families {
      order' := order;
      families' := families[fam := families[fam] + [t]];
    } else {
      NoneOfFamily(family, keys, fam);
      order' := order + [fam];
      families' := families[fam := [t]];
    }
    FamiliesGrow(family, families, order, order', keys, t);
  }

  method GroupFamilies(family: string -> string, keys: seq<string>)
    returns (families: map<string, seq<string>>, order: seq<string>)
    ensures IsFamilies(family, families, order, keys)
  {
    families, order := map[], [];
    for i := 0 to |keys|
      invariant IsFamilies(family, families, order, keys[..i])
    {
      assert keys[..i + 1] == keys[..i] + [keys[i]];
      families, order := AddTag(family, families, order, keys[i], keys[..i]);
    }
    assert keys[..|keys|] == keys;
  }

  lemma {:induction false} NoneOfFamily(family: string -> string, keys: seq<string>, fam: string)
    requires forall t :: t in keys ==> family(t) != fam
    ensures OfFamily(family, keys, fam) == []
  {
    if keys != [] {
      NoneOfFamily(family, keys[..|keys| - 1], fam);
    }
  }

  /** `next((t for t in tags if t != tag and mapping[t]), None)`, as a position. */
  function FirstRide(m: SpecMap, tag: string, tags: seq<string>, from: nat): (k: nat)
    requires from <= |tags|
    ensures from <= k <= |tags|
    ensures k < |tags| ==> CanRide(m, tag, tags[k])
    ensures forall i :: from <= i < k ==> !CanRide(m, tag, tags[i])
    decreases |tags| - from
  {
    if from == |tags| || CanRide(m, tag, tags[from]) then from else FirstRide(m, tag, tags, from + 1)
  }

  lemma RideIsUnique(family: string -> string, m: SpecMap, tag: string, fam: string, t: string, u: string)
    requires IsRide(family, m, tag, fam, t) && IsRide(family, m, tag, fam, u)
    ensures t == u
  {
    if t != u {
      LessTransitive(t, u, t);
      LessIrreflexive(t);
    }
  }

  lemma {:induction false} FirstRideIsRide(family: string -> string, m: SpecMap, tag: string, keys: seq<string>, fam: string)
    requires Ascending(keys) && forall t :: t in keys <==> t in m
    ensures var tags := OfFamily(family, keys, fam); var k := FirstRide(m, tag, tags, 0);
            && (k < |tags| ==> IsRide(family, m, tag, fam, tags[k]))
            && (k == |tags| ==> forall t :: t in m ==> !IsRide(family, m, tag, fam, t))
  {
    var tags := OfFamily(family, keys, fam);
    var k := FirstRide(m, tag, tags, 0);
    OfFamilyAscends(family, keys, fam);
    forall u | u in m && CanRide(m, tag, u) && family(u) == fam
      ensures k < |tags| && (u == tags[k] || Less(tags[k], u))
    {
      var j :| 0 <= j < |tags| && tags[j] == u;
    }
    if k < |tags| {
      assert tags[k] in tags;
    }
  }

  /** The specs of the other passed requirements. */
  method EarlierSpecs(m: SpecMap, tag: string, status: Status) returns (earlier: seq<string>)
    ensures forall x :: x in earlier <==> EarlierSpec(m, tag, status, x)
  {
    var keys := Sorted(m.Keys);
    earlier := [];
    for i := 0 to |keys|
      invariant forall x :: x in earlier <==>
          exists k :: 0 <= k < i && keys[k] != tag && Passed(status, keys[k]) && x in m[keys[k]]
    {
      if keys[i] != tag && Passed(status, keys[i]) {
        earlier := earlier + m[keys[i]];
      }
    }
    forall x ensures x in earlier <==> EarlierSpec(m, tag, status, x) {
      if EarlierSpec(m, tag, status, x) {
        var t :| t in m && t != tag && Passed(status, t) && x in m[t];
        assert t in keys;
      }
    }
  }

  /** The canary, if any, of one family. */
  method CanaryOf(family: string -> string, m: SpecMap, tag: string, status: Status, fam: string,
                  tags: seq<string>, ghost keys: seq<string>)
    returns (canary: seq<string>)
    requires Ascending(keys) && (forall t :: t in keys <==> t in m) && tags == OfFamily(family, keys, fam)
    ensures forall x :: x in canary <==> FamilyCanary(family, m, tag, status, fam, x)
  {
    FirstRideIsRide(family, m, tag, keys, fam);
    EarnedByTags(family, m, status, keys, fam);
    var k := FirstRide(m, tag, tags, 0);
    canary := [];
    if (exists t :: t in tags && Passed(status, t)) && k < |tags| {
      canary := [m[tags[k]][0]];
      forall x | FamilyCanary(family, m, tag, status, fam, x) ensures x in canary {
        var t :| t in m && IsRide(family, m, tag, fam, t) && x == m[t][0];
        RideIsUnique(family, m, tag, fam, t, tags[k]);
      }
    }
  }

  /** The canaries of the earned families. */
  method CanarySpecs(family: string -> string, m: SpecMap, tag: string, status: Status) returns (canaries: seq<string>)
    ensures forall x :: x in canaries <==> CanarySpec(family, m, tag, status, x)
  {
    var keys := Sorted(m.Keys);
    var families, order := GroupFamilies(family, keys);
    canaries := CanariesOf(family, m, tag, status, families, order, keys);
    forall x ensures x in canaries <==> CanarySpec(family, m, tag, status, x) {
      CanaryOfSomeFamily(family, m, tag, status, order, x);
    }
  }

  /** `x` is the canary of one of the families. */
  ghost predicate SomeCanary(family: string -> string, m: SpecMap, tag: string, status: Status,
                             fams: seq<string>, x: string)
  {
    exists k :: 0 <= k < |fams| && FamilyCanary(family, m, tag, status, fams[k], x)
  }

  /** The loop over the families. */
  method CanariesOf(family: string -> string, m: SpecMap, tag: string, status: Status,
                    families: map<string, seq<string>>, order: seq<string>, ghost keys: seq<string>)
    returns (canaries: seq<string>)
    requires Ascending(keys) && forall t :: t in keys <==> t in m
    requires forall fam :: fam in order ==> fam in families && families[fam] == OfFamily(family, keys, fam)
    ensures forall x :: x in canaries <==> SomeCanary(family, m, tag, status, order, x)
  {
    canaries := [];
    for i := 0 to |order|
      invariant forall x :: x in canaries <==> SomeCanary(family, m, tag, status, order[..i], x)
    {
      var canary := CanaryOf(family, m, tag, status, order[i], families[order[i]], keys);
      forall x ensures SomeCanary(family, m, tag, status, order[..i + 1], x) <==>
                       SomeCanary(family, m, tag, status, order[..i], x) || FamilyCanary(family, m, tag, status, order[i], x)
      {
        OneMoreFamily(family, m, tag, status, order, i, x);
      }
      canaries := canaries + canary;
    }
    assert order[..|order|] == order;
  }

  lemma OneMoreFamily(family: string -> string, m: SpecMap, tag: string, status: Status,
                      order: seq<string>, i: nat, x: string)
    requires i < |order|
    ensures SomeCanary(family, m, tag, status, order[..i + 1], x) <==>
            SomeCanary(family, m, tag, status, order[..i], x) || FamilyCanary(family, m, tag, status, order[i], x)
  {
  }

  lemma CanaryOfSomeFamily(family: string -> string, m: SpecMap, tag: string, status: Status, order: seq<string>, x: string)
    requires forall t :: t in m ==> family(t) in order
    ensures CanarySpec(family, m, tag, status, x) <==>
            SomeCanary(family, m, tag, status, order, x)
  {
  }

  /** `x` is the canary of `fam`. */
  predicate FamilyCanary(family: string -> string, m: SpecMap, tag: string, status: Status, fam: string, x: string) {
    Earned(family, m, status, fam) && exists t :: t in m && IsRide(family, m, tag, fam, t) && x == m[t][0]
  }

  lemma EarnedByTags(family: string -> string, m: SpecMap, status: Status, keys: seq<string>, fam: string)
    requires forall t :: t in keys <==> t in m
    ensures Earned(family, m, status, fam) <==> exists t :: t in OfFamily(family, keys, fam) && Passed(status, t)
  {
  }

  /** The regression part of `main`: the requirement's own specs, then the extra ones,
      each once. */
  method SelectSpecs(family: string -> string, m: SpecMap, tag: string, status: Status, specs: seq<string>)
    returns (all: seq<string>)
    ensures specs <= all
    ensures forall x :: x in all <==> x in specs || Rerun(family, m, tag, status, x)
    ensures forall i, j :: |specs| <= i < j < |all| ==> all[i] != all[j]
    ensures forall i :: |specs| <= i < |all| ==> all[i] !in specs
  {
    var earlier := EarlierSpecs(m, tag, status);
    if exists t :: t in m && Passed(status, t) {
      var canaries := CanarySpecs(family, m, tag, status);
      earlier := earlier + canaries;
    }
    all := specs;
    for i := 0 to |earlier|
      invariant specs <= all
      invariant forall x :: x in all <==> x in specs || x in earlier[..i]
      invariant forall i, j :: |specs| <= i < j < |all| ==> all[i] != all[j]
      invariant forall i :: |specs| <= i < |all| ==> all[i] !in specs
    {
      if earlier[i] !in all {
        all := all + [earlier[i]];
      }
    }
    assert earlier[..|earlier|] == earlier;
  }

  // ----- When the first spec of a family is run -----

  /** `t` is the first tag with specs of its family. */
  predicate LeadsFamily(family: string -> string, m: SpecMap, t: string) {
    t in m && m[t] != [] && forall u :: u in m && m[u] != [] && family(u) == family(t) ==> u == t || Less(t, u)
  }

  /** In a check of another tag the first tag rides. */
  lemma LeaderRides(family: string -> string, m: SpecMap, tag: string, t: string)
    requires LeadsFamily(family, m, t) && tag != t
    ensures IsRide(family, m, tag, family(t), t)
  {
  }

  /** On a cold run nothing is re-run: neither the first requirement's spec nor any other. */
  lemma {:induction false} ColdRunRerunsNothing(family: string -> string, m: SpecMap, tag: string, status: Status, x: string)
    requires forall t :: t in m ==> !Passed(status, t)
    ensures !Rerun(family, m, tag, status, x)
  {
  }

  /** No other family has the first spec of `t` too. */
  predicate OwnFirstSpec(family: string -> string, m: SpecMap, t: string)
    requires t in m && m[t] != []
  {
    forall u :: u in m && family(u) != family(t) ==> m[t][0] !in m[u]
  }

  /** The first spec of the tag that rides is re-run if and only if its family has passed. */
  lemma {:induction false} CanaryIsRerunIff(family: string -> string, m: SpecMap, tag: string, status: Status, t: string)
    requires IsRide(family, m, tag, family(t), t) && OwnFirstSpec(family, m, t)
    ensures Rerun(family, m, tag, status, m[t][0]) <==> Earned(family, m, status, family(t))
  {
    var x := m[t][0];
    if EarlierSpec(m, tag, status, x) {
      var u :| u in m && u != tag && Passed(status, u) && x in m[u];
      assert family(u) == family(t);
    }
    if CanarySpec(family, m, tag, status, x) {
      var u :| u in m && IsRide(family, m, tag, family(u), u) && Earned(family, m, status, family(u)) && x == m[u][0];
      assert x in m[u] && family(u) == family(t);
    }
  }

  /** `t` is the first tag with the number `ds`, other than the checked one, that has specs. */
  predicate FirstOther(m: SpecMap, tag: string, ds: string, t: string) {
    && CanRide(m, tag, t) && HasNumber(t, ds)
    && forall u :: u in m && CanRide(m, tag, u) && HasNumber(u, ds) ==> u == t || Less(t, u)
  }

  /** A tag of some REQ-n has passed, and `x` is the first spec of the first other tag of REQ-n. */
  ghost predicate NumberedCanary(m: SpecMap, tag: string, status: Status, x: string) {
    exists ds, t, u :: FirstOther(m, tag, ds, t) && u in m && HasNumber(u, ds) && Passed(status, u) && x == m[t][0]
  }

  /** Once a tag of REQ-n has passed, the first spec of the first other tag of REQ-n is re-run. */
  lemma {:induction false} NumberedCanaryIsRerun(m: SpecMap, tag: string, status: Status, x: string)
    requires NumberedCanary(m, tag, status, x)
    ensures Rerun(Family, m, tag, status, x)
  {
    var ds, t, u :| FirstOther(m, tag, ds, t) && u in m && HasNumber(u, ds) && Passed(status, u) && x == m[t][0];
    FamilyOfNumbered(t, ds);
    FamilyOfNumbered(u, ds);
    forall v | v in m && CanRide(m, tag, v) && Family(v) == Family(t) ensures v == t || Less(t, v) {
      FamilyIsNumber(v, ds);
    }
    assert IsRide(Family, m, tag, Family(t), t);
  }

  /** The check of a requirement lists its own specs and those to re-run. */
  predicate Lists(family: string -> string, m: SpecMap, tag: string, status: Status, x: string) {
    (tag in m && x in m[tag]) || Rerun(family, m, tag, status, x)
  }

  /** A check lists the first spec of a family, the first requirement's included, if and only if it
      has the spec among its own or the family has passed before. */
  lemma {:induction false} FirstSpecIsListedIff(family: string -> string, m: SpecMap, tag: string, status: Status, t: string)
    requires LeadsFamily(family, m, t) && OwnFirstSpec(family, m, t)
    ensures Lists(family, m, tag, status, m[t][0]) <==>
            (tag in m && m[t][0] in m[tag]) || Earned(family, m, status, family(t))
  {
    if tag == t {
      assert m[t][0] in m[t];
    } else {
      LeaderRides(family, m, tag, t);
      CanaryIsRerunIff(family, m, tag, status, t);
    }
  }
}
