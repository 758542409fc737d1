/** acme-server/src/server/dnsProviders.ts: which DNS provider owns a name. */
module DnsDispatch {
  import opened Wrappers
  import opened Names

  const ACME_PREFIX := "_acme-challenge."

  datatype ProviderType = Rfc2136 | Script | Memory

  /** One entry of config.dnsProviders; `name` is its label. */
  datatype Rule = Rule(zones: seq<string>, kind: ProviderType, name: string)

  datatype Candidate = Candidate(rule: nat, specificity: nat)

  /** Number of matched characters, or -1 when the zone does not match. */
  function MatchSpecificity(name: string, zone: string): int {
    if zone == "*" then 0
    else if IsWildcard(zone) then
      var suffix := zone[2..];
      if name == suffix || EndsWith(name, "." + suffix) then |suffix| else -1
    else if name == zone || EndsWith(name, "." + zone) then |zone|
    else -1
  }

  function StripAcmePrefix(name: string): string {
    if StartsWith(name, ACME_PREFIX) then name[|ACME_PREFIX|..] else name
  }

  function BuildChallengeName(identifier: string, wildcard: bool): string {
    var base := if wildcard && IsWildcard(identifier) then identifier[2..] else identifier;
    ACME_PREFIX + base
  }

  /** The (lower-cased, prefix-free) name that is compared with the zones. */
  function LookupName(identifier: string): string {
    Lower(StripAcmePrefix(identifier))
  }

  /** What a zone matches: "*" everything, "*.base" and a plain zone the name itself and all
      names under it; the specificity is the length of that name. */
  lemma {:induction false} ZoneMatchesIff(name: string, zone: string)
    ensures zone == "*" ==> MatchSpecificity(name, zone) == 0
    ensures forall base: string :: zone == "*." + base ==>
              MatchSpecificity(name, zone) == if IsAtOrUnder(name, base) then |base| else -1
    ensures zone != "*" && (forall base: string :: zone != "*." + base) ==>
              MatchSpecificity(name, zone) == if IsAtOrUnder(name, zone) then |zone| else -1
  {
    EndsIff(name, zone);
    if IsWildcard(zone) {
      assert zone == "*." + zone[2..];
      EndsIff(name, zone[2..]);
      forall base: string | zone == "*." + base ensures base == zone[2..] {}
    } else {
      forall base: string ensures zone != "*." + base { assert ("*." + base)[..2] == "*."; }
    }
  }

  /** Names are looked up in lower case, without one "_acme-challenge." in front. */
  lemma {:induction false} LookupNameIs(identifier: string)
    ensures forall rest: string :: identifier == "_acme-challenge." + rest ==> LookupName(identifier) == Lower(rest)
    ensures (forall rest: string :: identifier != "_acme-challenge." + rest) ==> LookupName(identifier) == Lower(identifier)
  {
    hide Lower;
    if StartsWith(identifier, ACME_PREFIX) {
      assert identifier == "_acme-challenge." + identifier[|ACME_PREFIX|..];
      forall rest: string | identifier == "_acme-challenge." + rest ensures rest == StripAcmePrefix(identifier) {}
    } else {
      forall rest: string ensures identifier != "_acme-challenge." + rest {
        assert ("_acme-challenge." + rest)[..|ACME_PREFIX|] == ACME_PREFIX;
      }
    }
  }

  /** Rule `i` lists a zone that matches `name` with specificity `s`. */
  ghost predicate Matches(name: string, rules: seq<Rule>, i: nat, s: int) {
    i < |rules| && s >= 0 &&
    exists z :: z in rules[i].zones && MatchSpecificity(name, Lower(z)) == s
  }

  /** `i` is the first-listed rule among those of maximal specificity. */
  ghost predicate IsPick(name: string, rules: seq<Rule>, i: nat) {
    exists s :: Matches(name, rules, i, s) && IsPickAt(name, rules, i, s)
  }

  ghost predicate IsPickAt(name: string, rules: seq<Rule>, i: nat, s: int) {
    forall j, t :: Matches(name, rules, j, t) ==> t <= s && (t == s ==> i <= j)
  }

  /** Candidates of the zones `zones[..n]` of rule `i`, in listing order. */
  function ZoneCandidates(name: string, i: nat, zones: seq<string>, n: nat): seq<Candidate>
    requires n <= |zones|
  {
    if n == 0 then []
    else
      var spec := MatchSpecificity(name, Lower(zones[n - 1]));
      ZoneCandidates(name, i, zones, n - 1) + (if spec >= 0 then [Candidate(i, spec)] else [])
  }

  /** Candidates of the rules `rules[..n]`, in listing order. */
  function Candidates(name: string, rules: seq<Rule>, n: nat): seq<Candidate>
    requires n <= |rules|
  {
    if n == 0 then []
    else Candidates(name, rules, n - 1) + ZoneCandidates(name, n - 1, rules[n - 1].zones, |rules[n - 1].zones|)
  }

  /** Array.prototype.sort with `b.specificity - a.specificity`: stable and descending. */
  function InsertDescending(sorted: seq<Candidate>, c: Candidate): seq<Candidate> {
    if sorted == [] || sorted[0].specificity < c.specificity then [c] + sorted
    else [sorted[0]] + InsertDescending(sorted[1..], c)
  }

  function SortDescending(cs: seq<Candidate>): (r: seq<Candidate>)
    ensures |r| == 0 <==> |cs| == 0
  {
    if cs == [] then [] else InsertDescending(SortDescending(cs[..|cs| - 1]), cs[|cs| - 1])
  }

  function Pick(identifier: string, rules: seq<Rule>): Option<nat> {
    var sorted := SortDescending(Candidates(LookupName(identifier), rules, |rules|));
    if sorted == [] then None else Some(sorted[0].rule)
  }

  /** matchRule: two nested loops collect candidates, then the sorted head wins. */
  method MatchRule(identifier: string, rules: seq<Rule>) returns (r: Option<nat>)
    ensures r == Pick(identifier, rules)
  {
    hide MatchSpecificity, Lower;
    var candidates: seq<Candidate> := [];
    var id := Lower(StripAcmePrefix(identifier));
    for i := 0 to |rules|
      invariant candidates == Candidates(id, rules, i)
    {
      for j := 0 to |rules[i].zones|
        invariant candidates == Candidates(id, rules, i) + ZoneCandidates(id, i, rules[i].zones, j)
      {
        var spec := MatchSpecificity(id, Lower(rules[i].zones[j]));
        if spec >= 0 {
          candidates := candidates + [Candidate(i, spec)];
        }
      }
    }
    var sorted := SortDescending(candidates);
    r := if |sorted| == 0 then None else Some(sorted[0].rule);
  }

  // ---- which provider serves a rule ----

  /** Two rules are served by one provider: memory rules of one label share it. */
  predicate Shares(rules: seq<Rule>, i: nat, j: nat) {
    || i == j
    || (i < |rules| && j < |rules| && rules[i].kind == Memory && rules[j].kind == Memory && rules[i].name == rules[j].name)
  }

  /** The first rule from `k` on that is served by the provider of rule `i`, if it comes before i. */
  function HomeFrom(rules: seq<Rule>, i: nat, k: nat): (h: nat)
    ensures Shares(rules, h, i) && (k <= h || h == i)
    ensures forall j :: k <= j < h ==> !Shares(rules, j, i)
    decreases i - k
  {
    if k >= i then i else if Shares(rules, k, i) then k else HomeFrom(rules, i, k + 1)
  }

  /** The provider of rule `i`, named by the first rule that it serves. */
  function Home(rules: seq<Rule>, i: nat): nat {
    HomeFrom(rules, i, 0)
  }

  /** Rules have one home exactly when they share their provider. */
  lemma {:induction false} HomeIff(rules: seq<Rule>, i: nat, j: nat)
    ensures Home(rules, i) == Home(rules, j) <==>
            i == j || (i < |rules| && j < |rules| && rules[i].kind == rules[j].kind == Memory && rules[i].name == rules[j].name)
  {
    var h, g := HomeFrom(rules, i, 0), HomeFrom(rules, j, 0);
    if Shares(rules, i, j) {
      assert Shares(rules, h, j) && Shares(rules, g, i);
    }
  }

  // ---- pickFor returns the first-listed rule of maximal specificity ----

  /** `cs[k]` is the first candidate of maximal specificity. */
  ghost predicate IsFirstMax(cs: seq<Candidate>, k: nat) {
    && k < |cs|
    && (forall j :: 0 <= j < |cs| ==> cs[j].specificity <= cs[k].specificity)
    && (forall j :: 0 <= j < k ==> cs[j].specificity < cs[k].specificity)
  }

  lemma {:induction false} SortedHead(cs: seq<Candidate>) returns (k: nat)
    requires cs != []
    ensures IsFirstMax(cs, k) && cs[k] == SortDescending(cs)[0]
  {
    var last := |cs| - 1;
    if last == 0 {
      assert SortDescending(cs[..0]) == [];
      k := 0;
    } else {
      var init := cs[..last];
      k := SortedHead(init);
      if init[k].specificity < cs[last].specificity { k := last; }
    }
  }

  lemma {:induction false} ZoneCandidatesAre(name: string, i: nat, zones: seq<string>, n: nat, c: Candidate)
    requires n <= |zones|
    ensures c in ZoneCandidates(name, i, zones, n) <==>
            c.rule == i && exists k :: 0 <= k < n && MatchSpecificity(name, Lower(zones[k])) == c.specificity
  {
    if n > 0 {
      ZoneCandidatesAre(name, i, zones, n - 1, c);
    }
  }

  /** The candidates are exactly the matches, grouped by ascending rule index. */
  lemma {:induction false} CandidatesAre(name: string, rules: seq<Rule>, n: nat)
    requires n <= |rules|
    ensures forall c :: c in Candidates(name, rules, n) <==> c.rule < n && Matches(name, rules, c.rule, c.specificity)
    ensures forall p, q :: 0 <= p < q < |Candidates(name, rules, n)| ==>
              Candidates(name, rules, n)[p].rule <= Candidates(name, rules, n)[q].rule
  {
    if n > 0 {
      CandidatesAre(name, rules, n - 1);
      var zones := rules[n - 1].zones;
      var block := ZoneCandidates(name, n - 1, zones, |zones|);
      forall c
        ensures c in block <==> c.rule == n - 1 && Matches(name, rules, n - 1, c.specificity)
      {
        ZoneCandidatesAre(name, n - 1, zones, |zones|, c);
      }
      assert forall q :: 0 <= q < |block| ==> block[q] in block;
      var before := Candidates(name, rules, n - 1);
      assert forall q :: 0 <= q < |before| ==> before[q] in before;
    }
  }

  lemma {:induction false} PickIsFirstMostSpecific(identifier: string, rules: seq<Rule>)
    ensures Pick(identifier, rules).None? <==> forall i, s :: !Matches(LookupName(identifier), rules, i, s)
    ensures Pick(identifier, rules).Some? ==> IsPick(LookupName(identifier), rules, Pick(identifier, rules).value)
  {
    var name := LookupName(identifier);
    var cs := Candidates(name, rules, |rules|);
    CandidatesAre(name, rules, |rules|);
    if cs == [] {
      forall i: nat, s ensures !Matches(name, rules, i, s) {
        if i < |rules| && s >= 0 { assert Candidate(i, s) !in cs; }
      }
    } else {
      var k := SortedHead(cs);
      assert cs[k] in cs;
      FirstMaxIsPick(name, rules, cs, k);
    }
  }

  lemma {:induction false} FirstMaxIsPick(name: string, rules: seq<Rule>, cs: seq<Candidate>, k: nat)
    requires IsFirstMax(cs, k)
    requires forall c :: c in cs <==> c.rule < |rules| && Matches(name, rules, c.rule, c.specificity)
    requires forall p, q :: 0 <= p < q < |cs| ==> cs[p].rule <= cs[q].rule
    ensures IsPick(name, rules, cs[k].rule)
  {
    var i, s := cs[k].rule, cs[k].specificity;
    assert cs[k] in cs;
    forall j, t | Matches(name, rules, j, t)
      ensures t <= s && (t == s ==> i <= j)
    {
      assert Candidate(j, t) in cs;
      var q :| 0 <= q < |cs| && cs[q] == Candidate(j, t);
    }
    assert IsPickAt(name, rules, i, s);
  }

  /** Two names that match every zone alike are served by the same rule. */
  lemma {:induction false} SameMatchesSamePick(a: string, b: string, rules: seq<Rule>, n: nat)
    requires n <= |rules|
    requires forall i, z :: 0 <= i < n && z in rules[i].zones ==>
               MatchSpecificity(a, Lower(z)) == MatchSpecificity(b, Lower(z))
    ensures Candidates(a, rules, n) == Candidates(b, rules, n)
  {
    if n > 0 {
      SameMatchesSamePick(a, b, rules, n - 1);
      SameZoneCandidates(a, b, n - 1, rules[n - 1].zones, |rules[n - 1].zones|);
    }
  }

  lemma {:induction false} SameZoneCandidates(a: string, b: string, i: nat, zones: seq<string>, n: nat)
    requires n <= |zones|
    requires forall z :: z in zones ==> MatchSpecificity(a, Lower(z)) == MatchSpecificity(b, Lower(z))
    ensures ZoneCandidates(a, i, zones, n) == ZoneCandidates(b, i, zones, n)
  {
    if n > 0 {
      SameZoneCandidates(a, b, i, zones, n - 1);
      assert zones[n - 1] in zones;
    }
  }

  // ---- placement and cleanup choose the same provider ----

  /** What insertAuthz stores for a posted identifier. */
  function StoredValue(posted: string): string {
    if IsWildcard(posted) then posted[2..] else posted
  }

  predicate DoubleWildcard(posted: string) {
    IsWildcard(posted) && IsWildcard(StoredValue(posted))
  }

  function PickAtPlacement(posted: string, rules: seq<Rule>): Option<nat> {
    Pick(StoredValue(posted), rules)
  }

  /** The worker strips the record name before it asks for the provider again. */
  function PickAtCleanup(posted: string, rules: seq<Rule>): Option<nat> {
    Pick(StripAcmePrefix(BuildChallengeName(StoredValue(posted), IsWildcard(posted))), rules)
  }

  /** Cleanup finds the provider placement used, under every rule list, exactly
      for identifiers that do not start with two wildcard labels. */
  lemma {:induction false} PlacementAndCleanupAgree(posted: string)
    ensures (forall rules :: PickAtPlacement(posted, rules) == PickAtCleanup(posted, rules)) <==> !DoubleWildcard(posted)
  {
    hide Pick, Lower;
    var value := StoredValue(posted);
    if DoubleWildcard(posted) {
      var rules := [Rule(["*." + value], Memory, "double")];
      DoubleWildcardDisagrees(value, rules);
      assert PickAtPlacement(posted, rules) != PickAtCleanup(posted, rules);
    }
  }

  lemma {:induction false} WildcardHasNoPrefix(name: string)
    requires IsWildcard(name)
    ensures StripAcmePrefix(name) == name
  {
    assert name[0] == '*';
    if |ACME_PREFIX| <= |name| { assert name[..|ACME_PREFIX|][0] == '*'; }
  }

  lemma {:induction false} DoubleWildcardDisagrees(value: string, rules: seq<Rule>)
    requires IsWildcard(value)
    requires rules == [Rule(["*." + value], Memory, "double")]
    ensures Pick(value, rules) == Some(0)
    ensures Pick(value[2..], rules) == None
  {
    var zone := Lower("*." + value);
    LowerConcat("*.", value);
    assert zone[2..] == Lower(value);
    assert zone[0] == '*' && zone[1] == '.';
    WildcardHasNoPrefix(value);
    assert zone != "*" by { assert |zone| >= 2; }
    assert IsWildcard(zone);
    assert MatchSpecificity(LookupName(value), zone) == |value|;
    assert rules[0].zones[0] in rules[0].zones;
    assert Matches(LookupName(value), rules, 0, |value|);
    PickIsFirstMostSpecific(value, rules);
    var bare := value[2..];
    assert |LookupName(bare)| <= |bare| < |zone[2..]|;
    assert MatchSpecificity(LookupName(bare), zone) == -1;
    forall i, s ensures !Matches(LookupName(bare), rules, i, s) {}
    PickIsFirstMostSpecific(bare, rules);
  }

  // ---- an accepted identifier still has a provider once "*." is stripped ----

  /** Prefixing labels changes nothing for the zones that are no longer than the name. */
  lemma {:induction false} PrefixedSpecificity(labels: string, name: string, zone: string)
    ensures var whole := labels + "." + name;
            if MatchSpecificity(whole, zone) <= |name| then MatchSpecificity(name, zone) == MatchSpecificity(whole, zone)
            else MatchSpecificity(name, zone) == -1
  {
    if zone != "*" {
      var suffix := if IsWildcard(zone) then zone[2..] else zone;
      PrefixedSuffix(labels, name, suffix);
    }
  }

  lemma {:induction false} PrefixedSuffix(labels: string, name: string, suffix: string)
    ensures var whole := labels + "." + name;
            && (|suffix| <= |name| ==> (whole == suffix || EndsWith(whole, "." + suffix) <==> name == suffix || EndsWith(name, "." + suffix)))
            && (|suffix| > |name| ==> name != suffix && !EndsWith(name, "." + suffix))
  {
    var whole, s := labels + "." + name, "." + suffix;
    if |suffix| == |name| {
      assert whole[|whole| - |s|..] == "." + name;
      assert suffix == s[1..] && name == ("." + name)[1..];
    } else if |suffix| < |name| {
      assert whole[|whole| - |s|..] == name[|name| - |s|..];
    }
  }

  /** Some zone matches `name` on at most `longest` characters. */
  ghost predicate HasMatchUpTo(name: string, rules: seq<Rule>, longest: nat) {
    exists i, z :: 0 <= i < |rules| && z in rules[i].zones && 0 <= MatchSpecificity(name, Lower(z)) <= longest
  }

  lemma {:induction false} PrefixIsLower()
    ensures Lower(ACME_PREFIX) == ACME_PREFIX
  {
    forall i | 0 <= i < |ACME_PREFIX| ensures LowerChar(ACME_PREFIX[i]) == ACME_PREFIX[i] {}
  }

  lemma {:induction false} LastLabelSplit(prefix: string, name: string) returns (labels: string)
    requires prefix != "" && prefix[|prefix| - 1] == '.'
    ensures "*." + (prefix + name) == labels + "." + name
  {
    labels := "*." + prefix[..|prefix| - 1];
    assert prefix == prefix[..|prefix| - 1] + ".";
  }

  lemma {:induction false} WildcardName(base: string)
    ensures LookupName("*." + base) == "*." + Lower(base)
  {
    WildcardHasNoPrefix("*." + base);
    LowerConcat("*.", base);
    assert Lower("*.") == "*.";
  }

  lemma {:induction false} PrefixedName(base: string)
    requires StartsWith(base, ACME_PREFIX)
    ensures Lower(base) == ACME_PREFIX + LookupName(base)
  {
    PrefixIsLower();
    LowerConcat(ACME_PREFIX, StripAcmePrefix(base));
    hide Lower;
    assert base == ACME_PREFIX + StripAcmePrefix(base);
  }

  /** The name "*." + base is looked up under: some labels before the name of `base`. */
  lemma {:induction false} WildcardLookup(base: string) returns (labels: string)
    ensures LookupName("*." + base) == labels + "." + LookupName(base)
    ensures !StartsWith(base, ACME_PREFIX) ==> labels == "*"
  {
    WildcardName(base);
    if StartsWith(base, ACME_PREFIX) {
      PrefixedName(base);
      hide Lower, LookupName;
      labels := LastLabelSplit(ACME_PREFIX, LookupName(base));
    } else {
      assert LookupName(base) == Lower(base);
      hide Lower, LookupName;
      labels := "*";
      assert "*" + "." == "*.";
    }
  }

  lemma {:induction false} PickExists(identifier: string, rules: seq<Rule>, i: nat, z: string)
    requires i < |rules| && z in rules[i].zones && MatchSpecificity(LookupName(identifier), Lower(z)) >= 0
    ensures Pick(identifier, rules).Some?
  {
    PickIsFirstMostSpecific(identifier, rules);
    assert Matches(LookupName(identifier), rules, i, MatchSpecificity(LookupName(identifier), Lower(z)));
  }

  lemma {:induction false} PickHasZone(identifier: string, rules: seq<Rule>) returns (i: nat, z: string)
    requires Pick(identifier, rules).Some?
    ensures i < |rules| && z in rules[i].zones && MatchSpecificity(LookupName(identifier), Lower(z)) >= 0
  {
    PickIsFirstMostSpecific(identifier, rules);
    var s;
    i, s :| Matches(LookupName(identifier), rules, i, s);
    z :| z in rules[i].zones && MatchSpecificity(LookupName(identifier), Lower(z)) == s;
  }

  /** newOrder accepts "*." + base when some rule matches it; the worker later looks up
      `base`. It then finds a provider if and only if some zone matches "*." + base on no
      more characters than the name that `base` is looked up under. */
  lemma {:induction false} AcceptedWildcardHasProvider(base: string, rules: seq<Rule>)
    ensures Pick(base, rules).Some? <==> HasMatchUpTo(LookupName("*." + base), rules, |LookupName(base)|)
    ensures Pick(base, rules).Some? ==> Pick("*." + base, rules).Some?
  {
    hide Pick, LookupName, MatchSpecificity;
    var labels := WildcardLookup(base);
    var name, whole := LookupName(base), LookupName("*." + base);
    if Pick(base, rules).Some? {
      var i, z := PickHasZone(base, rules);
      PrefixedSpecificity(labels, name, Lower(z));
      assert 0 <= MatchSpecificity(whole, Lower(z)) <= |name|;
      PickExists("*." + base, rules, i, z);
    }
    if HasMatchUpTo(whole, rules, |name|) {
      var i, z :| 0 <= i < |rules| && z in rules[i].zones && 0 <= MatchSpecificity(whole, Lower(z)) <= |name|;
      PrefixedSpecificity(labels, name, Lower(z));
      PickExists(base, rules, i, z);
    }
  }

  /** Without a prefix to strip, the only zone that matches "*." + name on more characters
      is the doubly wildcarded one. */
  lemma {:induction false} LongerMatchIsDoubleWildcard(name: string, zone: string)
    ensures MatchSpecificity("*." + name, zone) > |name| <==> zone == "*.*." + name
  {
    var whole := "*." + name;
    if IsWildcard(zone) {
      NoLongerSuffix(name, zone[2..]);
      assert zone == "*." + zone[2..] && zone != "*";
      assert zone == "*.*." + name <==> zone[2..] == whole;
    } else {
      NoLongerSuffix(name, zone);
      assert IsWildcard(whole) && IsWildcard("*." + whole);
      assert "*." + whole == "*.*." + name;
    }
  }

  lemma {:induction false} NoLongerSuffix(name: string, suffix: string)
    ensures |suffix| > |name| ==> !EndsWith("*." + name, "." + suffix)
  {
    var whole, s := "*." + name, "." + suffix;
    if |suffix| > |name| && |s| <= |whole| {
      assert whole[|whole| - |s|..][0] == whole[|whole| - |s|] == '*';
    }
  }
}
