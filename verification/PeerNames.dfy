/** The registry of peer names that the DNS responder answers from. */
module PeerNames {
  import opened Net

  datatype Reply = NotMine | NxDomain | Answer(addrs: seq<IpAddr>)

  function LowerChar(c: char): char {
    if 'A' <= c <= 'Z' then (c as int - 'A' as int + 'a' as int) as char else c
  }

  function Lower(s: string): (r: string)
    ensures |r| == |s| && forall i :: 0 <= i < |s| ==> r[i] == LowerChar(s[i])
  {
    seq(|s|, i requires 0 <= i < |s| => LowerChar(s[i]))
  }

  predicate IsUpper(c: char) {
    'A' <= c <= 'Z'
  }

  function UpperChar(c: char): char {
    if 'a' <= c <= 'z' then (c as int - 'a' as int + 'A' as int) as char else c
  }

  function Upper(s: string): (r: string)
    ensures |r| == |s| && forall i :: 0 <= i < |s| ==> r[i] == UpperChar(s[i])
  {
    seq(|s|, i requires 0 <= i < |s| => UpperChar(s[i]))
  }

  /** The key of a name has no capitals, is that of the name in capitals too, and is the name itself if it has none. */
  lemma {:induction false} LowerFolds(s: string)
    ensures forall i :: 0 <= i < |s| ==> !IsUpper(Lower(s)[i])
    ensures Lower(Upper(s)) == Lower(s)
    ensures (forall i :: 0 <= i < |s| ==> !IsUpper(s[i])) ==> Lower(s) == s
  {
  }

  function TrimDots(s: string): string {
    if s != [] && s[|s| - 1] == '.' then TrimDots(s[..|s| - 1]) else s
  }

  /** The label of a query, without the suffix and the dots before it. */
  function Label(query: string, suffix: string): string
    requires |suffix| <= |query|
  {
    TrimDots(query[..|query| - |suffix|])
  }

  /** A peer name that a query can spell: not empty and without a trailing dot. */
  predicate Resolvable(name: string) {
    name != [] && name[|name| - 1] != '.'
  }

  function QueryFor(name: string, suffix: string): string {
    Lower(name) + "." + suffix
  }

  /** `matches` is the foreign suffix test; a query it accepts is at least as long as the suffix. */
  function Resolve(addresses: map<string, seq<IpAddr>>, matches: (string, string) -> bool, suffix: string, query: string): (r: Reply)
    ensures r == NotMine <==> !matches(query, suffix) || |query| < |suffix|
    ensures r.Answer? ==> exists stem :: stem in addresses && addresses[stem] == r.addrs && stem != [] && stem <= query
  {
    LabelIsPrefix(query, suffix);
    if !matches(query, suffix) || |query| < |suffix| then NotMine
    else
      var stem := Label(query, suffix);
      if stem == [] || stem !in addresses then NxDomain else Answer(addresses[stem])
  }

  lemma {:induction false} LabelIsPrefix(query: string, suffix: string)
    ensures |suffix| <= |query| ==> Label(query, suffix) <= query
  {
    if |suffix| <= |query| {
      TrimIsPrefix(query[..|query| - |suffix|]);
    }
  }

  lemma {:induction false} TrimIsPrefix(s: string)
    ensures TrimDots(s) <= s
    decreases |s|
  {
    if s != [] && s[|s| - 1] == '.' {
      TrimIsPrefix(s[..|s| - 1]);
    }
  }

  /** A query finds exactly the entry stored for a name, for exactly the resolvable names. */
  lemma {:induction false} QueryFindsName(name: string, suffix: string)
    ensures Resolvable(name) <==> (Label(QueryFor(name, suffix), suffix) == Lower(name) && name != [])
  {
    var q := QueryFor(name, suffix);
    var dotted := Lower(name) + ".";
    assert q[..|q| - |suffix|] == dotted;
    assert dotted[..|dotted| - 1] == Lower(name);
    assert TrimDots(dotted) == TrimDots(Lower(name));
    if name != [] {
      TrimShrinks(Lower(name));
    }
  }

  lemma {:induction false} TrimShrinks(s: string)
    requires s != []
    ensures |TrimDots(s)| <= |s|
    ensures TrimDots(s) == s <==> s[|s| - 1] != '.'
    decreases |s|
  {
    if s[|s| - 1] == '.' && |s| > 1 {
      TrimShrinks(s[..|s| - 1]);
    }
  }

  class Registry {
    const suffix: string
    var addresses: map<string, seq<IpAddr>>

    constructor (suffix: string)
      ensures this.suffix == suffix && addresses == map[]
    {
      this.suffix := suffix;
      addresses := map[];
    }

    method Set(name: string, addrs: seq<IpAddr>, ghost matches: (string, string) -> bool)
      modifies this
      ensures addresses == old(addresses)[Lower(name) := addrs]
      ensures Resolvable(name) && matches(QueryFor(name, suffix), suffix) ==>
                Resolve(addresses, matches, suffix, QueryFor(name, suffix)) == Answer(addrs)
    {
      addresses := addresses[Lower(name) := addrs];
      QueryFindsName(name, suffix);
    }

    method Remove(name: string, ghost matches: (string, string) -> bool)
      modifies this
      ensures addresses == old(addresses) - {Lower(name)}
      ensures Resolvable(name) && matches(QueryFor(name, suffix), suffix) ==>
                Resolve(addresses, matches, suffix, QueryFor(name, suffix)) == NxDomain
    {
      addresses := addresses - {Lower(name)};
      QueryFindsName(name, suffix);
    }
  }
}
