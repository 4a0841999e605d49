/** Provider configurations of machines: injecting a failure domain, extracting
    it again, and the conversions between the two versions of AWS references. */
module ProviderConfigs {
  import opened FailureDomains

  // ------------------------------------------------------------------ Azure

  /** The fields of an Azure provider spec that a failure domain sets; the rest
      of the spec is left as it is. */
  datatype AzureConfig = AzureConfig(zone: string, subnet: string, rest: string)
  {
    function Inject(fd: AzureFailureDomain): AzureConfig {
      var c := if fd.zone != "" then this.(zone := fd.zone) else this;
      if fd.subnet != "" then c.(subnet := fd.subnet) else c
    }

    function Extract(): AzureFailureDomain { AzureFailureDomain(zone, subnet) }
  }

  /** Lens laws for Azure: what is extracted after an injection is the injected
      domain completed from the config; injecting what is there changes
      nothing; only the last of two complete injections shows. */
  lemma AzureLens(c: AzureConfig, fd: AzureFailureDomain, later: AzureFailureDomain)
    ensures c.Inject(fd).Extract() == CompleteAzure(fd, c.Extract())
    ensures c.Inject(c.Extract()) == c
    ensures c.Inject(fd).Inject(later) == c.Inject(CompleteAzure(later, fd))
    ensures c.Inject(fd).rest == c.rest
  {}

  /** A machine made from a template, for a failure domain completed against
      it, is found in exactly that failure domain. */
  lemma AzureMachineInDomain(template: AzureConfig, fd: AzureFailureDomain)
    ensures var domain := CompleteAzure(fd, template.Extract());
            template.Inject(domain).Extract() == domain
  {
    AzureLens(template, CompleteAzure(fd, template.Extract()), fd);
  }

  // -------------------------------------------------------------------- AWS

  /** A reference in a provider spec: whichever fields are set. */
  datatype Filter = Filter(name: string, values: Option<seq<string>>)

  datatype AWSReference = AWSReference(id: Option<string>, arn: Option<string>, filters: Option<seq<Filter>>)

  const NO_REFERENCE := AWSReference(None, None, None)

  function FilterV1(f: Filter): AWSResourceFilter { AWSResourceFilter(f.name, f.values) }

  function FilterV1Beta1(f: AWSResourceFilter): Filter { Filter(f.name, f.values) }

  function FiltersV1(fs: seq<Filter>): seq<AWSResourceFilter> {
    seq(|fs|, k requires 0 <= k < |fs| => FilterV1(fs[k]))
  }

  function FiltersV1Beta1(fs: seq<AWSResourceFilter>): seq<Filter> {
    seq(|fs|, k requires 0 <= k < |fs| => FilterV1Beta1(fs[k]))
  }

  /** The reference as the failure domain API has it: the first field that is
      set, in the order id, filters, ARN, decides its type. */
  function ReferenceV1(r: AWSReference): Option<AWSResourceReference> {
    if r.id.Some? then Some(AWSResourceReference(AWSID, r.id, None, None))
    else if r.filters.Some? then Some(AWSResourceReference(AWSFilters, None, None, Some(FiltersV1(r.filters.value))))
    else if r.arn.Some? then Some(AWSResourceReference(AWSARN, None, r.arn, None))
    else None
  }

  /** A reference of type filters must have filters: the program reads them
      without a check. */
  predicate Convertible(r: Option<AWSResourceReference>) {
    r.Some? && r.value.refType == AWSFilters ==> r.value.filters.Some?
  }

  /** The reference as a provider spec has it: only the field its type names. */
  function ReferenceV1Beta1(r: Option<AWSResourceReference>): AWSReference
    requires Convertible(r)
  {
    if r.None? then NO_REFERENCE
    else
      match r.value.refType
      case AWSID => AWSReference(r.value.id, None, None)
      case AWSFilters => AWSReference(None, None, Some(FiltersV1Beta1(r.value.filters.value)))
      case AWSARN => AWSReference(None, r.value.arn, None)
      case Unspecified => NO_REFERENCE
  }

  method ConvertV1Beta1ToV1(r: AWSReference) returns (v1: Option<AWSResourceReference>)
    ensures v1 == ReferenceV1(r)
  {
    var reference := AWSResourceReference(Unspecified, None, None, None);
    if r.id.Some? {
      return Some(reference.(refType := AWSID, id := r.id));
    }
    if r.filters.Some? {
      var filters: seq<AWSResourceFilter> := [];
      for n := 0 to |r.filters.value|
        invariant filters == FiltersV1(r.filters.value[..n])
      {
        filters := filters + [AWSResourceFilter(r.filters.value[n].name, r.filters.value[n].values)];
      }
      assert r.filters.value[..|r.filters.value|] == r.filters.value;
      return Some(reference.(refType := AWSFilters, filters := Some(filters)));
    }
    if r.arn.Some? {
      return Some(reference.(refType := AWSARN, arn := r.arn));
    }
    return None;
  }

  method ConvertV1ToV1Beta1(r: Option<AWSResourceReference>) returns (v1beta1: AWSReference)
    requires Convertible(r)
    ensures v1beta1 == ReferenceV1Beta1(r)
  {
    v1beta1 := NO_REFERENCE;
    if r.None? { return; }
    match r.value.refType {
      case AWSID => v1beta1 := v1beta1.(id := r.value.id);
      case AWSFilters =>
        var given := r.value.filters.value;
        var filters: seq<Filter> := [];
        for n := 0 to |given|
          invariant filters == FiltersV1Beta1(given[..n])
        {
          filters := filters + [Filter(given[n].name, given[n].values)];
        }
        assert given[..|given|] == given;
        v1beta1 := v1beta1.(filters := Some(filters));
      case AWSARN => v1beta1 := v1beta1.(arn := r.value.arn);
      case Unspecified =>
    }
  }

  /** Exactly the field that the type names is set. */
  predicate WellFormed(r: AWSResourceReference) {
    match r.refType
    case AWSID => r.id.Some? && r.arn.None? && r.filters.None?
    case AWSARN => r.arn.Some? && r.id.None? && r.filters.None?
    case AWSFilters => r.filters.Some? && r.id.None? && r.arn.None?
    case Unspecified => false
  }

  predicate AtMostOneSet(r: AWSReference) {
    (if r.id.Some? then 1 else 0) + (if r.arn.Some? then 1 else 0) + (if r.filters.Some? then 1 else 0) <= 1
  }

  lemma FiltersRoundTrip(fs: seq<AWSResourceFilter>, gs: seq<Filter>)
    ensures FiltersV1(FiltersV1Beta1(fs)) == fs
    ensures FiltersV1Beta1(FiltersV1(gs)) == gs
  {
    assert forall k :: 0 <= k < |fs| ==> FilterV1(FilterV1Beta1(fs[k])) == fs[k];
    assert forall k :: 0 <= k < |gs| ==> FilterV1Beta1(FilterV1(gs[k])) == gs[k];
  }

  /** A reference survives the way into a provider spec and back exactly when
      it is well formed. */
  lemma ReferenceRoundTrip(r: AWSResourceReference)
    requires Convertible(Some(r))
    ensures ReferenceV1(ReferenceV1Beta1(Some(r))) == Some(r) <==> WellFormed(r)
  {
    if r.refType == AWSFilters { FiltersRoundTrip(r.filters.value, []); }
  }

  /** The other way round: a reference in a provider spec survives exactly when
      no more than one of its fields is set. */
  lemma SpecReferenceRoundTrip(r: AWSReference)
    ensures Convertible(ReferenceV1(r))
    ensures ReferenceV1Beta1(ReferenceV1(r)) == r <==> AtMostOneSet(r)
    ensures ReferenceV1(r).Some? ==> WellFormed(ReferenceV1(r).value)
  {
    if r.filters.Some? { FiltersRoundTrip([], r.filters.value); }
  }

  /** Which field of a provider spec's reference counts when several are set:
      the identifier, else the filters, else the ARN; and it alone is kept. */
  lemma ReferencePrecedence(r: AWSReference)
    ensures ReferenceV1(r).None? <==> r == NO_REFERENCE
    ensures r.id.Some? ==> ReferenceV1(r) == Some(AWSResourceReference(AWSID, r.id, None, None))
    ensures r.id.None? && r.filters.Some? ==>
              ReferenceV1(r).Some? && ReferenceV1(r).value.refType == AWSFilters && ReferenceV1(r).value.filters.Some? &&
              |ReferenceV1(r).value.filters.value| == |r.filters.value| &&
              forall k :: 0 <= k < |r.filters.value| ==>
                ReferenceV1(r).value.filters.value[k].name == r.filters.value[k].name &&
                ReferenceV1(r).value.filters.value[k].values == r.filters.value[k].values
    ensures r.id.None? && r.filters.None? && r.arn.Some? ==>
              ReferenceV1(r) == Some(AWSResourceReference(AWSARN, None, r.arn, None))
  {}

  /** Into a provider spec goes only the field that the type names. */
  lemma OnlyNamedField(r: AWSResourceReference)
    requires Convertible(Some(r))
    ensures var spec := ReferenceV1Beta1(Some(r));
            && spec.id == (if r.refType == AWSID then r.id else None)
            && spec.arn == (if r.refType == AWSARN then r.arn else None)
            && (spec.filters.Some? <==> r.refType == AWSFilters)
            && (r.refType == AWSFilters ==> FiltersV1(spec.filters.value) == r.filters.value)
  {
    if r.refType == AWSFilters { FiltersRoundTrip(r.filters.value, []); }
  }

  /** The parts of an AWS provider spec that a failure domain sets. */
  datatype AWSConfig = AWSConfig(availabilityZone: string, subnet: AWSReference, rest: string)
  {
    function Inject(fd: AWSFailureDomain): AWSConfig
      requires Convertible(fd.subnet)
    {
      var c := if fd.availabilityZone != "" then this.(availabilityZone := fd.availabilityZone) else this;
      if fd.subnet.Some? then c.(subnet := ReferenceV1Beta1(fd.subnet)) else c
    }

    function Extract(): AWSFailureDomain {
      AWSFailureDomain(availabilityZone, ReferenceV1(subnet))
    }
  }

  /** Lens law for AWS: what is extracted after an injection is the injected
      domain completed from the config, exactly when the domain has no subnet
      or a well-formed one. */
  lemma AWSLens(c: AWSConfig, fd: AWSFailureDomain)
    requires Convertible(fd.subnet)
    ensures c.Inject(fd).Extract() == CompleteAWS(fd, c.Extract())
            <==> fd.subnet.None? || WellFormed(fd.subnet.value)
    ensures c.Inject(fd).rest == c.rest
  {
    if fd.subnet.Some? { ReferenceRoundTrip(fd.subnet.value); }
  }

  /** Injecting what was extracted changes nothing exactly when the subnet
      reference of the spec has at most one field set; it never changes what
      is extracted. */
  lemma AWSReinject(c: AWSConfig)
    ensures Convertible(c.Extract().subnet)
    ensures c.Inject(c.Extract()) == c <==> AtMostOneSet(c.subnet)
    ensures c.Inject(c.Extract()).Extract() == c.Extract()
  {
    SpecReferenceRoundTrip(c.subnet);
    AWSLens(c, c.Extract());
  }

  /** For AWS a machine made from a template is found in the completed failure
      domain it was made for exactly when the configured domain has no subnet
      or a well-formed one. */
  lemma AWSMachineInDomain(template: AWSConfig, fd: AWSFailureDomain)
    requires Convertible(fd.subnet)
    ensures Convertible(CompleteAWS(fd, template.Extract()).subnet)
    ensures var domain := CompleteAWS(fd, template.Extract());
            template.Inject(domain).Extract() == domain <==> fd.subnet.None? || WellFormed(fd.subnet.value)
  {
    SpecReferenceRoundTrip(template.subnet);
    AWSLens(template, CompleteAWS(fd, template.Extract()));
  }

  // --------------------------------------------------------------- by index

  /** A template's provider spec, of either platform. */
  datatype ProviderConfig = AWSProvider(aws: AWSConfig) | AzureProvider(azure: AzureConfig)
  {
    /** A failure domain of another platform has nothing to inject. */
    function Inject(fd: FailureDomain): ProviderConfig
      requires fd.AWS? ==> Convertible(fd.aws.subnet)
    {
      match this
      case AWSProvider(c) => AWSProvider(c.Inject(if fd.AWS? then fd.aws else AWSFailureDomain("", None)))
      case AzureProvider(c) => AzureProvider(c.Inject(if fd.Azure? then fd.azure else AzureFailureDomain("", "")))
    }

    function Extract(): FailureDomain {
      match this
      case AWSProvider(c) => AWS(c.Extract())
      case AzureProvider(c) => Azure(c.Extract())
    }
  }

  predicate MappingConvertible(mapping: map<int, FailureDomain>) {
    forall i :: i in mapping && mapping[i].AWS? ==> Convertible(mapping[i].aws.subnet)
  }

  /** The config for a new machine at an index: the template as it is if no
      index is mapped, otherwise with the index's failure domain. An index that
      is not mapped then has none to inject, which is an error. */
  method ProviderConfigForIndex(template: ProviderConfig, mapping: map<int, FailureDomain>, i: int)
    returns (r: Option<ProviderConfig>)
    requires MappingConvertible(mapping)
    ensures r.None? <==> mapping != map[] && i !in mapping
    ensures r.Some? ==> r.value == if mapping == map[] then template else template.Inject(mapping[i])
  {
    if |mapping| == 0 { return Some(template); }
    if i !in mapping { return None; }
    return Some(template.Inject(mapping[i]));
  }

  predicate SubnetWellFormed(fd: FailureDomain) {
    fd.AWS? && fd.aws.subnet.Some? ==> WellFormed(fd.aws.subnet.value)
  }

  /** A machine made from a template for a failure domain completed from it is
      found in that domain, if and only if the configured subnet reference is
      absent or well formed. */
  lemma MachineInDomain(template: ProviderConfig, fd: FailureDomain)
    requires fd.Complete(Some(template.Extract())).Success?
    requires fd.AWS? ==> Convertible(fd.aws.subnet)
    ensures var domain := fd.Complete(Some(template.Extract())).value;
            && (domain.AWS? ==> Convertible(domain.aws.subnet))
            && (template.Inject(domain).Extract() == domain <==> SubnetWellFormed(fd))
  {
    match template {
      case AWSProvider(c) => AWSMachineInDomain(c, fd.aws);
      case AzureProvider(c) => AzureMachineInDomain(c, fd.azure);
    }
  }
}
