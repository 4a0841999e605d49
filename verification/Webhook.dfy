/** The create-time checks of failure domains against the machines. */
module Webhook {
  import opened FailureDomains
  import opened ProviderConfigs
  import opened AzureGenerator

  method Contains(fds: seq<FailureDomain>, fd: FailureDomain) returns (found: bool)
    ensures found <==> fd in fds
  {
    for n := 0 to |fds|
      invariant fd !in fds[..n]
    {
      if fd == fds[n] { return true; }
    }
    return false;
  }

  /** The items of one list that are not in another, in order. */
  function Missing(items: seq<FailureDomain>, others: seq<FailureDomain>): (r: seq<FailureDomain>)
    ensures forall x :: x in r <==> x in items && x !in others
  {
    if items == [] then []
    else
      var init, last := items[..|items| - 1], items[|items| - 1];
      assert items == init + [last];
      if last in others then Missing(init, others) else Missing(init, others) + [last]
  }

  lemma {:induction false} MissingConcat(a: seq<FailureDomain>, b: seq<FailureDomain>, others: seq<FailureDomain>)
    ensures Missing(a + b, others) == Missing(a, others) + Missing(b, others)
  {
    if b == [] {
      assert a + b == a;
    } else {
      assert (a + b)[..|a + b| - 1] == a + b[..|b| - 1];
      MissingConcat(a, b[..|b| - 1], others);
    }
  }

  method MissingFailureDomains(items: seq<FailureDomain>, others: seq<FailureDomain>) returns (missing: seq<FailureDomain>)
    ensures missing == Missing(items, others)
  {
    missing := [];
    for n := 0 to |items|
      invariant missing == Missing(items[..n], others)
    {
      assert items[..n + 1][..n] == items[..n];
      var found := false;
      for k := 0 to |others|
        invariant !found && items[n] !in others[..k]
      {
        if items[n] == others[k] {
          found := true;
          break;
        }
      }
      if !found { missing := missing + [items[n]]; }
    }
    assert items[..|items|] == items;
  }

  ghost predicate Occurs(items: seq<FailureDomain>, x: FailureDomain, j: nat, k: nat) {
    j < k < |items| && items[j] == x && items[k] == x
  }

  /** The items that occur at least twice, each once. */
  method DuplicatedFailureDomains(items: seq<FailureDomain>) returns (duplicated: seq<FailureDomain>)
    ensures Distinct(duplicated)
    ensures forall x :: x in duplicated <==> exists j, k :: Occurs(items, x, j, k)
    ensures duplicated == [] <==> Distinct(items)
  {
    var seen: seq<FailureDomain>;
    seen, duplicated := [], [];
    for n := 0 to |items|
      invariant forall x :: x in seen <==> x in items[..n]
      invariant Distinct(duplicated)
      invariant forall x :: x in duplicated ==> exists j, k :: Occurs(items, x, j, k)
      invariant forall j, k :: 0 <= j < k < n && items[j] == items[k] ==> items[j] in duplicated
    {
      var before := Contains(seen, items[n]);
      if !before {
        seen := seen + [items[n]];
      } else {
        assert items[n] in items[..n];
        var j :| 0 <= j < n && items[j] == items[n];
        assert Occurs(items, items[n], j, n);
        var listed := Contains(duplicated, items[n]);
        if !listed { duplicated := duplicated + [items[n]]; }
      }
    }
    if duplicated != [] { assert duplicated[0] in duplicated; }
  }

  // ----------------------------------------------------------------- checks

  datatype CheckError =
    | UnreadableMachines
    | UnparsableDomains
    | UnparsableTemplate
    | NotComparable(error: Error)
    | UnspecifiedDomains(missing: seq<FailureDomain>)
    | UnusedDomains(missing: seq<FailureDomain>, duplicated: seq<FailureDomain>)
    | TemplateMismatch

  function Completed(fds: seq<FailureDomain>, t: FailureDomain): seq<FailureDomain>
    requires AllComplete(fds, Some(t))
  {
    seq(|fds|, k requires 0 <= k < |fds| => fds[k].Complete(Some(t)).value)
  }

  /** The specified domains, completed, are what the machines use: no machine is
      elsewhere, and if a domain is unused then every machine has its own. */
  ghost predicate DomainsAccepted(machines: seq<FailureDomain>, specified: seq<FailureDomain>, t: FailureDomain) {
    && AllComplete(specified, Some(t))
    && (forall m :: m in machines ==> m in Completed(specified, t))
    && (Distinct(machines) || forall d :: d in Completed(specified, t) ==> d in machines)
  }

  /** Each machine's failure domain, unless its provider spec is unreadable. */
  predicate AllReadable(machines: seq<Option<FailureDomain>>) {
    forall k :: 0 <= k < |machines| ==> machines[k].Some?
  }

  function Readings(machines: seq<Option<FailureDomain>>): seq<FailureDomain>
    requires AllReadable(machines)
  {
    seq(|machines|, k requires 0 <= k < |machines| => machines[k].value)
  }

  /** Repeated domains are kept. */
  method GetMachineFailureDomains(machines: seq<Option<FailureDomain>>) returns (r: Option<seq<FailureDomain>>)
    ensures r.Some? <==> AllReadable(machines)
    ensures r.Some? ==> r.value == Readings(machines)
  {
    var domains: seq<FailureDomain> := [];
    for n := 0 to |machines|
      invariant |domains| == n && forall k :: 0 <= k < n ==> machines[k] == Some(domains[k])
    {
      if machines[n].None? { return None; }
      domains := domains + [machines[n].value];
    }
    return Some(domains);
  }

  /** specified is None if the configured domains cannot be parsed. */
  method CheckFailureDomainsMatchMachines(machines: seq<Option<FailureDomain>>, specified: Option<seq<FailureDomain>>,
                                          t: FailureDomain)
    returns (errs: seq<CheckError>)
    ensures errs == [] <==>
              AllReadable(machines) && specified.Some? && DomainsAccepted(Readings(machines), specified.value, t)
  {
    var domains := GetMachineFailureDomains(machines);
    if domains.None? { return [UnreadableMachines]; }
    if specified.None? { return [UnparsableDomains]; }
    errs := CompareDomains(domains.value, specified.value, t);
  }

  /** Machines in domains that are not configured are reported with those
      domains; unused domains are reported, with the domains that several
      machines share, if there are such machines; nothing else is. */
  ghost predicate ErrorsAre(errs: seq<CheckError>, machines: seq<FailureDomain>, completed: seq<FailureDomain>) {
    && (forall e {:trigger e in errs} :: e in errs ==> e.UnspecifiedDomains? || e.UnusedDomains?)
    && (forall e {:trigger e in errs} :: e in errs && e.UnspecifiedDomains? ==> e.missing == Missing(machines, completed))
    && (forall e {:trigger e in errs} :: e in errs && e.UnusedDomains? ==>
          e.missing == Missing(completed, machines) && Repeated(machines, e.duplicated))
    && ((exists e {:trigger e in errs} :: e in errs && e.UnspecifiedDomains?) <==> Outside(machines, completed))
    && ((exists e {:trigger e in errs} :: e in errs && e.UnusedDomains?) <==>
          !Distinct(machines) && Outside(completed, machines))
  }

  /** Some item is not among the others. */
  ghost predicate Outside(items: seq<FailureDomain>, others: seq<FailureDomain>) {
    exists x :: x in items && x !in others
  }

  ghost predicate Repeated(items: seq<FailureDomain>, duplicated: seq<FailureDomain>) {
    forall x {:trigger x in duplicated} :: x in duplicated <==> exists j, k :: Occurs(items, x, j, k)
  }

  method CompareDomains(machines: seq<FailureDomain>, specified: seq<FailureDomain>, t: FailureDomain)
    returns (errs: seq<CheckError>)
    ensures errs == [] <==> DomainsAccepted(machines, specified, t)
    ensures AllComplete(specified, Some(t)) ==> ErrorsAre(errs, machines, Completed(specified, t))
    ensures !AllComplete(specified, Some(t)) ==> |errs| == 1 && errs[0].NotComparable?
  {
    errs := [];
    var comparable := CompleteFailureDomains(specified, Some(t));
    if comparable.Failure? {
      return [NotComparable(comparable.error)];
    }
    assert comparable.value == Completed(specified, t);
    var unspecified := MissingFailureDomains(machines, comparable.value);
    if |unspecified| > 0 {
      errs := errs + [UnspecifiedDomains(unspecified)];
    }
    var unused := MissingFailureDomains(comparable.value, machines);
    ghost var repeated: seq<FailureDomain> := [];
    if |unused| > 0 {
      var duplicated := DuplicatedFailureDomains(machines);
      repeated := duplicated;
      if |duplicated| > 0 {
        errs := errs + [UnusedDomains(unused, duplicated)];
      }
    }
    NoneMissing(machines, comparable.value);
    NoneMissing(comparable.value, machines);
    ErrorsOf(machines, comparable.value, repeated, errs);
  }

  lemma ErrorsOf(machines: seq<FailureDomain>, completed: seq<FailureDomain>, repeated: seq<FailureDomain>,
                 errs: seq<CheckError>)
    requires Outside(completed, machines) ==>
               Repeated(machines, repeated) && (repeated == [] <==> Distinct(machines))
    requires errs == (if Outside(machines, completed) then [UnspecifiedDomains(Missing(machines, completed))] else [])
                  + (if Outside(completed, machines) && repeated != []
                     then [UnusedDomains(Missing(completed, machines), repeated)] else [])
    ensures ErrorsAre(errs, machines, completed)
    ensures errs == [] <==> !Outside(machines, completed) && (Distinct(machines) || !Outside(completed, machines))
  {
    var p, q := Outside(machines, completed), Outside(completed, machines) && !Distinct(machines);
    var first := UnspecifiedDomains(Missing(machines, completed));
    var second := UnusedDomains(Missing(completed, machines), repeated);
    AtMostTwo(first, p, second, q, errs);
    ErrorsMean(machines, completed, errs, first, p, second, q);
  }

  lemma ErrorsMean(machines: seq<FailureDomain>, completed: seq<FailureDomain>, errs: seq<CheckError>,
                   first: CheckError, p: bool, second: CheckError, q: bool)
    requires forall e {:trigger e in errs} :: e in errs <==> (p && e == first) || (q && e == second)
    requires p == Outside(machines, completed) && q == (Outside(completed, machines) && !Distinct(machines))
    requires first.UnspecifiedDomains? && first.missing == Missing(machines, completed)
    requires second.UnusedDomains? && second.missing == Missing(completed, machines)
    requires q ==> Repeated(machines, second.duplicated)
    ensures ErrorsAre(errs, machines, completed)
  {
    assert p ==> first in errs;
    assert q ==> second in errs;
  }

  lemma AtMostTwo<T>(x: T, p: bool, y: T, q: bool, list: seq<T>)
    requires list == (if p then [x] else []) + (if q then [y] else [])
    ensures forall e {:trigger e in list} :: e in list <==> (p && e == x) || (q && e == y)
    ensures list == [] <==> !p && !q
  {
  }

  lemma NoneMissing(items: seq<FailureDomain>, others: seq<FailureDomain>)
    ensures Missing(items, others) == [] <==> !Outside(items, others)
  {
    var r := Missing(items, others);
    if r != [] { assert r[0] in r; }
  }

  /** The distinct domains of the machines, in the order first met. */
  method ExtractFailureDomains(machines: seq<Option<FailureDomain>>) returns (r: Option<seq<FailureDomain>>)
    ensures r.Some? <==> AllReadable(machines)
    ensures r.Some? ==> Distinct(r.value) && forall d :: d in r.value <==> d in Readings(machines)
  {
    var domains := GetMachineFailureDomains(machines);
    if domains.None? { return None; }
    var distinct := new DomainSet();
    distinct.Insert(domains.value);
    return Some(distinct.items);
  }

  /** Without specified failure domains every machine must be in the template's;
      each distinct domain is compared. t is None if the template cannot be
      parsed. */
  method CheckTemplateMatchesMachines(machines: seq<Option<FailureDomain>>, t: Option<FailureDomain>)
    returns (errs: seq<CheckError>)
    ensures errs == [] <==> t.Some? && AllReadable(machines) && forall m :: m in Readings(machines) ==> m == t.value
  {
    if t.None? { return [UnparsableTemplate]; }
    var domains := ExtractFailureDomains(machines);
    if domains.None? { return [UnreadableMachines]; }
    errs := [];
    for n := 0 to |domains.value|
      invariant errs == [] <==> forall k :: 0 <= k < n ==> domains.value[k] == t.value
    {
      if t.value != domains.value[n] { errs := errs + [TemplateMismatch]; }
    }
    assert forall k :: 0 <= k < |domains.value| ==> domains.value[k] in Readings(machines);
    assert forall m :: m in Readings(machines) ==> m in domains.value;
  }

  /** The failure domains of a template: none, ones that cannot be parsed, or a
      list. */
  datatype Configured = NoDomains | Unparsable | Domains(fds: seq<FailureDomain>)

  /** Which check applies depends on whether there are failure domains; with
      them the template has to be readable. */
  method ValidateTemplateOnCreate(machines: seq<Option<FailureDomain>>, configured: Configured, t: Option<FailureDomain>)
    returns (errs: seq<CheckError>)
    requires configured.NoDomains? || t.Some?
    ensures errs == [] <==>
              AllReadable(machines) && t.Some? &&
              match configured
              case NoDomains => forall m :: m in Readings(machines) ==> m == t.value
              case Unparsable => false
              case Domains(fds) => DomainsAccepted(Readings(machines), fds, t.value)
  {
    match configured {
      case NoDomains => errs := CheckTemplateMatchesMachines(machines, t);
      case Unparsable => errs := CheckFailureDomainsMatchMachines(machines, None, t.value);
      case Domains(fds) => errs := CheckFailureDomainsMatchMachines(machines, Some(fds), t.value);
    }
  }

  // ------------------------------------------------- generated sets validate

  function AzureDomains(fds: seq<AzureFailureDomain>): seq<FailureDomain> {
    seq(|fds|, k requires 0 <= k < |fds| => Azure(fds[k]))
  }

  function MachineDomains(configs: seq<AzureConfig>): seq<FailureDomain> {
    seq(|configs|, k requires 0 <= k < |configs| => Azure(configs[k].Extract()))
  }

  /** The same as the webhook reads them. */
  function Read(configs: seq<AzureConfig>): (machines: seq<Option<FailureDomain>>)
    ensures AllReadable(machines) && Readings(machines) == MachineDomains(configs)
  {
    seq(|configs|, k requires 0 <= k < |configs| => Some(Azure(configs[k].Extract())))
  }

  function AzureParts(fds: seq<FailureDomain>): seq<AzureFailureDomain>
    requires forall d :: d in fds ==> d.Azure?
  {
    seq(|fds|, k requires 0 <= k < |fds| => fds[k].azure)
  }

  lemma PartsListDomains(fds: seq<FailureDomain>, configs: seq<AzureConfig>)
    requires Distinct(fds) && forall d :: d in fds <==> d in MachineDomains(configs)
    ensures forall d :: d in fds ==> d.Azure?
    ensures ListsDomains(AzureParts(fds), configs)
  {
    forall d | d in fds ensures d.Azure? {
      assert d in MachineDomains(configs);
    }
    var parts := AzureParts(fds);
    forall i | 0 <= i < |fds| ensures fds[i] == Azure(parts[i]) {
      assert fds[i] in fds;
    }
    forall i, j | 0 <= i < j < |parts| ensures parts[i] != parts[j] {
      assert fds[i] != fds[j];
    }
    forall fd ensures fd in parts <==> exists k :: 0 <= k < |configs| && configs[k].Extract() == fd {
      if fd in parts {
        var i :| 0 <= i < |parts| && parts[i] == fd;
        assert fds[i] in fds;
        var k :| 0 <= k < |configs| && MachineDomains(configs)[k] == fds[i];
        assert configs[k].Extract() == fd;
      }
      if k :| 0 <= k < |configs| && configs[k].Extract() == fd {
        assert MachineDomains(configs)[k] == Azure(fd);
        assert Azure(fd) in fds;
        var i :| 0 <= i < |fds| && fds[i] == Azure(fd);
        assert parts[i] == fd;
      }
    }
  }

  /** Completing the generated domains gives the domains of the machines. */
  lemma CompletedGenerated(configs: seq<AzureConfig>, listed: seq<AzureFailureDomain>)
    requires configs != [] && ListsDomains(listed, configs) && Generated(listed).Some?
    ensures var t := Azure(Template(configs).Extract());
            var fds := AzureDomains(Generated(listed).value);
            AllComplete(fds, Some(t)) && Completed(fds, t) == AzureDomains(listed)
  {
    GeneratedRoundTrip(configs, listed);
  }

  lemma DomainInList(configs: seq<AzureConfig>, listed: seq<AzureFailureDomain>, d: FailureDomain)
    requires ListsDomains(listed, configs)
    ensures d in AzureDomains(listed) <==> d in MachineDomains(configs)
  {
    if d in AzureDomains(listed) {
      var k :| 0 <= k < |listed| && AzureDomains(listed)[k] == d;
      assert listed[k] in listed;
      var j :| 0 <= j < |configs| && configs[j].Extract() == listed[k];
      assert MachineDomains(configs)[j] == d;
    }
    if d in MachineDomains(configs) {
      var j :| 0 <= j < |configs| && MachineDomains(configs)[j] == d;
      assert configs[j].Extract() in listed;
      var k :| 0 <= k < |listed| && listed[k] == configs[j].Extract();
      assert AzureDomains(listed)[k] == d;
    }
  }

  /** The domains of the machines, each once. */
  method ListMachineDomains(configs: seq<AzureConfig>) returns (listed: seq<AzureFailureDomain>)
    ensures ListsDomains(listed, configs)
  {
    var domains := ExtractFailureDomains(Read(configs));
    PartsListDomains(domains.value, configs);
    listed := AzureParts(domains.value);
  }

  /** In whatever order the domains of the machines are listed, the generated
      set passes the create-time checks against those machines. */
  method ValidateGenerated(configs: seq<AzureConfig>, listed: seq<AzureFailureDomain>) returns (errs: seq<CheckError>)
    requires configs != [] && ListsDomains(listed, configs)
    ensures errs == []
  {
    var fds := BuildFailureDomains(listed);
    var template := BuildMachineSpec(configs);
    GeneratedRoundTrip(configs, listed);
    var configured := if fds.Some? then Domains(AzureDomains(fds.value)) else NoDomains;
    if fds.Some? {
      CompletedGenerated(configs, listed);
      forall d ensures d in AzureDomains(listed) <==> d in MachineDomains(configs) {
        DomainInList(configs, listed, d);
      }
    }
    errs := ValidateTemplateOnCreate(Read(configs), configured, Some(Azure(template.Extract())));
  }

  /** For every non-empty list of machines, whatever their zones and subnets,
      the set generated from them passes the create-time checks. */
  method GenerateAndValidate(configs: seq<AzureConfig>) returns (errs: seq<CheckError>)
    requires configs != []
    ensures errs == []
  {
    var listed := ListMachineDomains(configs);
    errs := ValidateGenerated(configs, listed);
  }
}
