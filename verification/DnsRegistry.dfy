/** DnsProviderRegistry of acme-server/src/server/dnsProviders.ts: one provider for each
    rule, built on first use, and one for all memory rules of the same label. */
module DnsRegistry {
  import opened Wrappers
  import opened DnsDispatch
  import opened MemoryZone

  /** A provider outside the process, or an object of this one. */
  datatype Provider = External(rule: nat) | InMemory(instance: MemoryProvider)

  class Registry {
    const rules: seq<Rule>
    var cache: map<nat, Provider>
    var memInstances: map<string, MemoryProvider>

    /** The provider of a cached rule is its own, or the instance of its label. */
    ghost predicate Serves(i: nat)
      requires i < |rules| && i in cache
      reads this
    {
      if rules[i].kind != Memory then cache[i] == External(i)
      else rules[i].name in memInstances && cache[i] == InMemory(memInstances[rules[i].name])
    }

    ghost predicate Valid()
      reads this, memInstances.Values
    {
      && (forall i :: i in cache ==> i < |rules| && Serves(i))
      && (forall l :: l in memInstances ==> memInstances[l].name == l)
    }

    constructor (rules: seq<Rule>)
      ensures Valid() && this.rules == rules && cache == map[] && memInstances == map[]
    {
      this.rules := rules;
      cache, memInstances := map[], map[];
    }

    /** Rules are served by the same object if and only if they have the same home. */
    lemma {:induction false} SharedIff(i: nat, j: nat)
      requires Valid() && i in cache && j in cache
      ensures i < |rules| && j < |rules| && (cache[i] == cache[j] <==> Home(rules, i) == Home(rules, j))
    {
      HomeIff(rules, i, j);
      assert Serves(i) && Serves(j);
    }

    method Build(i: nat) returns (provider: Provider)
      requires Valid() && i < |rules|
      modifies this
      ensures Valid() && cache == old(cache)
      ensures forall l :: l in old(memInstances) ==> l in memInstances && memInstances[l] == old(memInstances[l])
      ensures forall l :: l in memInstances && l !in old(memInstances) ==>
                fresh(memInstances[l]) && memInstances[l].Valid() && memInstances[l].Contents() == {}
      ensures if rules[i].kind != Memory then provider == External(i) && memInstances == old(memInstances)
              else rules[i].name in memInstances && provider == InMemory(memInstances[rules[i].name])
    {
      if rules[i].kind != Memory { return External(i); }
      var name := rules[i].name;
      if name in memInstances { return InMemory(memInstances[name]); }
      var instance := new MemoryProvider(name);
      memInstances := memInstances[name := instance];
      provider := InMemory(instance);
    }

    /** pickFor: the provider of the chosen rule, the same one at every call, or null. */
    method PickFor(identifier: string) returns (provider: Option<Provider>)
      requires Valid()
      modifies this
      ensures Valid()
      ensures forall i :: i in old(cache) ==> i in cache && cache[i] == old(cache)[i]
      ensures forall l :: l in old(memInstances) ==> l in memInstances && memInstances[l] == old(memInstances[l])
      ensures forall l :: l in memInstances && l !in old(memInstances) ==>
                fresh(memInstances[l]) && memInstances[l].Valid() && memInstances[l].Contents() == {}
      ensures provider.Some? <==> Pick(identifier, rules).Some?
      ensures provider.Some? ==> Pick(identifier, rules).value in cache && provider == Some(cache[Pick(identifier, rules).value])
    {
      PickIsFirstMostSpecific(identifier, rules);
      var rule := MatchRule(identifier, rules);
      if rule.None? { return None; }
      if rule.value in cache { return Some(cache[rule.value]); }
      var built := Build(rule.value);
      cache := cache[rule.value := built];
      provider := Some(built);
    }

    method HasProviderFor(identifier: string) returns (has: bool)
      ensures has <==> exists i, s :: Matches(LookupName(identifier), rules, i, s)
    {
      PickIsFirstMostSpecific(identifier, rules);
      var rule := MatchRule(identifier, rules);
      has := rule.Some?;
    }
  }
}
