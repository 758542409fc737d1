/** The in-memory DNS provider: memoryProvider of acme-server/src/dns/providers.ts. */
module MemoryZone {
  class MemoryProvider {
    const name: string
    var records: map<string, set<string>>

    /** A name without values is not kept. */
    ghost predicate Valid()
      reads this
    {
      forall name :: name in records ==> records[name] != {}
    }

    ghost predicate IsPublished(name: string, value: string)
      reads this
    {
      name in records && value in records[name]
    }

    /** Everything it publishes, as pairs of name and value. */
    ghost function Contents(): set<(string, string)>
      reads this
    {
      set n, v | n in records && v in records[n] :: (n, v)
    }

    constructor (name: string)
      ensures Valid() && this.name == name && Contents() == {}
      ensures forall n, v :: !IsPublished(n, v)
    {
      this.name := name;
      records := map[];
    }

    /** Publishes exactly one more record, or none if it is there already. */
    method Place(name: string, value: string)
      requires Valid()
      modifies this
      ensures Valid()
      ensures forall n, v :: IsPublished(n, v) <==> old(IsPublished(n, v)) || (n == name && v == value)
      ensures Contents() == old(Contents()) + {(name, value)}
    {
      var values := if name in records then records[name] else {};
      records := records[name := values + {value}];
    }

    /** Withdraws exactly that record; withdrawing one that is not there does nothing. */
    method Cleanup(name: string, value: string)
      requires Valid()
      modifies this
      ensures Valid()
      ensures forall n, v :: IsPublished(n, v) <==> old(IsPublished(n, v)) && !(n == name && v == value)
      ensures Contents() == old(Contents()) - {(name, value)}
      ensures !old(IsPublished(name, value)) ==> records == old(records)
    {
      if name !in records { return; }
      var values := records[name] - {value};
      assert forall v :: v in records[name] ==> v in values || v == value;
      assert value !in records[name] ==> values == records[name] && records[name := values] == records;
      if values == {} {
        records := records - {name};
      } else {
        records := records[name := values];
      }
    }
  }
}
