/** Generating failure domains and a template from the machines of an Azure
    cluster, and the webhook's checks of failure domains against machines. */
module AzureGenerator {
  import opened FailureDomains
  import opened ProviderConfigs

  // --------------------------------------------------------------- template

  predicate ZonesMatch(configs: seq<AzureConfig>) {
    forall k :: 0 <= k < |configs| ==> configs[k].zone == configs[0].zone
  }

  predicate SubnetsMatch(configs: seq<AzureConfig>) {
    forall k :: 0 <= k < |configs| ==> configs[k].subnet == configs[0].subnet
  }

  method AllConfigZonesMatch(configs: seq<AzureConfig>) returns (r: bool)
    requires configs != []
    ensures r <==> ZonesMatch(configs)
  {
    var first := configs[0].zone;
    for n := 0 to |configs|
      invariant forall k :: 0 <= k < n ==> configs[k].zone == first
    {
      if configs[n].zone != first { return false; }
    }
    return true;
  }

  method AllConfigSubnetsMatch(configs: seq<AzureConfig>) returns (r: bool)
    requires configs != []
    ensures r <==> SubnetsMatch(configs)
  {
    var first := configs[0].subnet;
    for n := 0 to |configs|
      invariant forall k :: 0 <= k < n ==> configs[k].subnet == first
    {
      if configs[n].subnet != first { return false; }
    }
    return true;
  }

  /** The template: the newest machine's config, without the fields in which
      the machines differ. */
  function Template(configs: seq<AzureConfig>): AzureConfig
    requires configs != []
  {
    AzureConfig(if ZonesMatch(configs) then configs[0].zone else "",
                if SubnetsMatch(configs) then configs[0].subnet else "",
                configs[0].rest)
  }

  method BuildMachineSpec(configs: seq<AzureConfig>) returns (template: AzureConfig)
    requires configs != []
    ensures template == Template(configs)
  {
    template := configs[0];
    var zones := AllConfigZonesMatch(configs);
    if !zones { template := template.(zone := ""); }
    var subnets := AllConfigSubnetsMatch(configs);
    if !subnets { template := template.(subnet := ""); }
  }

  // --------------------------------------------------------- failure domains

  predicate DomainZonesMatch(fds: seq<AzureFailureDomain>) {
    forall k :: 0 <= k < |fds| ==> fds[k].zone == fds[0].zone
  }

  predicate DomainSubnetsMatch(fds: seq<AzureFailureDomain>) {
    forall k :: 0 <= k < |fds| ==> fds[k].subnet == fds[0].subnet
  }

  method AllZonesMatch(fds: array<AzureFailureDomain>) returns (r: bool)
    ensures r <==> DomainZonesMatch(fds[..])
  {
    for n := 0 to fds.Length
      invariant forall k :: 0 <= k < n ==> fds[k].zone == fds[0].zone
    {
      if fds[n].zone != fds[0].zone {
        assert fds[..][n].zone != fds[..][0].zone;
        return false;
      }
    }
    return true;
  }

  method AllSubnetsMatch(fds: array<AzureFailureDomain>) returns (r: bool)
    ensures r <==> DomainSubnetsMatch(fds[..])
  {
    for n := 0 to fds.Length
      invariant forall k :: 0 <= k < n ==> fds[k].subnet == fds[0].subnet
    {
      if fds[n].subnet != fds[0].subnet {
        assert fds[..][n].subnet != fds[..][0].subnet;
        return false;
      }
    }
    return true;
  }

  /** The domain without the fields that are cleared. */
  function Cleared(fd: AzureFailureDomain, zone: bool, subnet: bool): AzureFailureDomain {
    AzureFailureDomain(if zone then "" else fd.zone, if subnet then "" else fd.subnet)
  }

  /** The generated failure domains: none if there is at most one; otherwise
      without the fields in which all agree. */
  function Generated(listed: seq<AzureFailureDomain>): Option<seq<AzureFailureDomain>> {
    if |listed| <= 1 then None
    else Some(seq(|listed|, k requires 0 <= k < |listed| =>
                 Cleared(listed[k], DomainZonesMatch(listed), DomainSubnetsMatch(listed))))
  }

  method ClearSubnets(fds: array<AzureFailureDomain>)
    modifies fds
    ensures forall k :: 0 <= k < fds.Length ==> fds[k] == Cleared(old(fds[k]), false, true)
  {
    for n := 0 to fds.Length
      invariant forall k :: 0 <= k < n ==> fds[k] == Cleared(old(fds[k]), false, true)
      invariant forall k :: n <= k < fds.Length ==> fds[k] == old(fds[k])
    {
      fds[n] := fds[n].(subnet := "");
    }
  }

  method ClearZones(fds: array<AzureFailureDomain>)
    modifies fds
    ensures forall k :: 0 <= k < fds.Length ==> fds[k] == Cleared(old(fds[k]), true, false)
  {
    for n := 0 to fds.Length
      invariant forall k :: 0 <= k < n ==> fds[k] == Cleared(old(fds[k]), true, false)
      invariant forall k :: n <= k < fds.Length ==> fds[k] == old(fds[k])
    {
      fds[n] := fds[n].(zone := "");
    }
  }

  /** Clears the fields in place: the subnets first, which leaves the zones, and
      so the test on them, as they were. */
  method BuildFailureDomains(listed: seq<AzureFailureDomain>) returns (r: Option<seq<AzureFailureDomain>>)
    ensures r == Generated(listed)
  {
    if |listed| <= 1 { return None; }
    var fds := new AzureFailureDomain[|listed|](k requires 0 <= k < |listed| => listed[k]);
    assert fds[..] == listed;
    var subnets := AllSubnetsMatch(fds);
    if subnets { ClearSubnets(fds); }
    assert forall k :: 0 <= k < |listed| ==> fds[k] == Cleared(listed[k], false, subnets);
    var zones := AllZonesMatch(fds);
    assert zones <==> DomainZonesMatch(listed) by {
      assert forall k :: 0 <= k < |listed| ==> fds[..][k].zone == listed[k].zone;
    }
    if zones { ClearZones(fds); }
    assert fds[..] == Generated(listed).value;
    return Some(fds[..]);
  }

  /** The template is the newest machine's spec, except for zone and subnet,
      which are empty unless all machines have the same. */
  lemma TemplateFields(configs: seq<AzureConfig>)
    requires configs != []
    ensures Template(configs).rest == configs[0].rest
    ensures Template(configs).zone ==
            if forall j, k :: 0 <= j < k < |configs| ==> configs[j].zone == configs[k].zone then configs[0].zone else ""
    ensures Template(configs).subnet ==
            if forall j, k :: 0 <= j < k < |configs| ==> configs[j].subnet == configs[k].subnet then configs[0].subnet else ""
  {
    if ZonesMatch(configs) {
      assert forall j, k :: 0 <= j < k < |configs| ==> configs[j].zone == configs[k].zone;
    }
    if SubnetsMatch(configs) {
      assert forall j, k :: 0 <= j < k < |configs| ==> configs[j].subnet == configs[k].subnet;
    }
  }

  /** Of several domains each is generated, with the fields in which two of them
      differ, and without those in which all agree; one alone is not. */
  lemma GeneratedFields(listed: seq<AzureFailureDomain>)
    ensures Generated(listed).Some? <==> |listed| > 1
    ensures Generated(listed).Some? ==> |Generated(listed).value| == |listed|
    ensures Generated(listed).Some? ==> forall k :: 0 <= k < |listed| ==>
              var fd := Generated(listed).value[k];
              && fd.zone == (if exists i, j :: 0 <= i < j < |listed| && listed[i].zone != listed[j].zone then listed[k].zone else "")
              && fd.subnet == (if exists i, j :: 0 <= i < j < |listed| && listed[i].subnet != listed[j].subnet then listed[k].subnet else "")
  {
    if DomainZonesMatch(listed) {
      assert forall i, j :: 0 <= i < j < |listed| ==> listed[i].zone == listed[j].zone;
    }
    if DomainSubnetsMatch(listed) {
      assert forall i, j :: 0 <= i < j < |listed| ==> listed[i].subnet == listed[j].subnet;
    }
  }

  // ------------------------------------------------------------- round trip

  /** The list holds the failure domains of the machines, each once. */
  ghost predicate ListsDomains(listed: seq<AzureFailureDomain>, configs: seq<AzureConfig>) {
    Distinct(listed) && forall fd :: fd in listed <==> exists k :: 0 <= k < |configs| && configs[k].Extract() == fd
  }

  lemma FieldsAgree(listed: seq<AzureFailureDomain>, configs: seq<AzureConfig>)
    requires ListsDomains(listed, configs) && configs != [] && listed != []
    ensures ZonesMatch(configs) <==> DomainZonesMatch(listed)
    ensures ZonesMatch(configs) ==> configs[0].zone == listed[0].zone
    ensures SubnetsMatch(configs) <==> DomainSubnetsMatch(listed)
    ensures SubnetsMatch(configs) ==> configs[0].subnet == listed[0].subnet
  {
    assert forall k :: 0 <= k < |configs| ==> configs[k].Extract() in listed;
    assert forall k :: 0 <= k < |listed| ==> listed[k] in listed;
  }

  /** The generated set gives back the failure domains of the machines, one by
      one: the fields that were cleared are exactly those of the template. */
  lemma GeneratedRoundTrip(configs: seq<AzureConfig>, listed: seq<AzureFailureDomain>)
    requires configs != [] && ListsDomains(listed, configs)
    ensures var t := Template(configs).Extract();
            match Generated(listed)
            case Some(fds) => |fds| == |listed| && forall k :: 0 <= k < |fds| ==> CompleteAzure(fds[k], t) == listed[k]
            case None => forall k :: 0 <= k < |configs| ==> configs[k].Extract() == t
  {
    assert configs[0].Extract() in listed;
    FieldsAgree(listed, configs);
    if |listed| == 1 {
      forall k | 0 <= k < |configs| ensures configs[k].Extract() == listed[0] {
        assert configs[k].Extract() in listed;
      }
      assert DomainZonesMatch(listed) && DomainSubnetsMatch(listed);
    } else {
      assert listed[0] != listed[1];
    }
  }
}
