/** Failure domains of the platforms, their completion against the machine
    template, and the insertion-ordered set of distinct failure domains. */
module FailureDomains {

  datatype Option<+T> = None | Some(value: T)

  datatype Result<+T> = Success(value: T) | Failure(error: Error)

  datatype Error =
    | MissingTemplateFailureDomain
    | MismatchedPlatformType

  datatype ReferenceType = AWSID | AWSARN | AWSFilters | Unspecified

  /** Values is None for a nil list: the comparison tells nil and empty apart. */
  datatype AWSResourceFilter = AWSResourceFilter(name: string, values: Option<seq<string>>)

  datatype AWSResourceReference = AWSResourceReference(
    refType: ReferenceType,
    id: Option<string>,
    arn: Option<string>,
    filters: Option<seq<AWSResourceFilter>>)

  datatype AWSFailureDomain = AWSFailureDomain(availabilityZone: string, subnet: Option<AWSResourceReference>)

  datatype AzureFailureDomain = AzureFailureDomain(zone: string, subnet: string)

  datatype RootVolume = RootVolume(availabilityZone: string, volumeType: string)

  datatype OpenStackFailureDomain = OpenStackFailureDomain(availabilityZone: string, rootVolume: Option<RootVolume>)

  /** The constructor is the platform type. Two failure domains are Equal in
      the program exactly when they are == here: the platform types match and
      the fields of that platform match, through pointers. */
  datatype FailureDomain =
    | AWS(aws: AWSFailureDomain)
    | Azure(azure: AzureFailureDomain)
    | GCP(gcpZone: string)
    | OpenStack(openstack: OpenStackFailureDomain)
    | VSphere(vsphereName: string)
    | Nutanix(nutanixName: string)
    | Generic
  {
    predicate SamePlatform(other: FailureDomain) {
      (AWS? <==> other.AWS?) && (Azure? <==> other.Azure?) && (GCP? <==> other.GCP?) &&
      (OpenStack? <==> other.OpenStack?) && (VSphere? <==> other.VSphere?) && (Nutanix? <==> other.Nutanix?)
    }

    /** Fills every unset field from the template's failure domain. */
    function Complete(template: Option<FailureDomain>): Result<FailureDomain> {
      if template.None? then Failure(MissingTemplateFailureDomain)
      else if !SamePlatform(template.value) then Failure(MismatchedPlatformType)
      else Success(
        match (this, template.value)
        case (AWS(fd), AWS(t)) => AWS(CompleteAWS(fd, t))
        case (Azure(fd), Azure(t)) => Azure(CompleteAzure(fd, t))
        case (GCP(zone), GCP(t)) => GCP(Override(zone, t))
        case (OpenStack(fd), OpenStack(t)) => OpenStack(CompleteOpenStack(fd, t))
        case (VSphere(name), VSphere(t)) => VSphere(Override(name, t))
        case (Nutanix(name), Nutanix(t)) => Nutanix(Override(name, t))
        case (_, _) => Generic)
    }
  }

  /** The own value where it is set, otherwise the template's. */
  function Override(own: string, template: string): string {
    if own != "" then own else template
  }

  /** The program also compares the subnet pointer with an empty reference
      struct; values of different types are never deeply equal, so that test
      always passes and only the nil check decides. */
  function CompleteAWS(fd: AWSFailureDomain, t: AWSFailureDomain): AWSFailureDomain {
    AWSFailureDomain(Override(fd.availabilityZone, t.availabilityZone),
                     if fd.subnet.Some? then fd.subnet else t.subnet)
  }

  function CompleteAzure(fd: AzureFailureDomain, t: AzureFailureDomain): AzureFailureDomain {
    AzureFailureDomain(Override(fd.zone, t.zone), Override(fd.subnet, t.subnet))
  }

  function CompleteOpenStack(fd: OpenStackFailureDomain, t: OpenStackFailureDomain): OpenStackFailureDomain {
    OpenStackFailureDomain(
      Override(fd.availabilityZone, t.availabilityZone),
      if t.rootVolume.None? then fd.rootVolume
      else if fd.rootVolume.None? then t.rootVolume
      else Some(RootVolume(
        Override(fd.rootVolume.value.availabilityZone, t.rootVolume.value.availabilityZone),
        Override(fd.rootVolume.value.volumeType, t.rootVolume.value.volumeType))))
  }

  /** When completing fails, and why. */
  lemma CompleteSucceeds(fd: FailureDomain, t: Option<FailureDomain>)
    ensures t == None ==> fd.Complete(t) == Failure(MissingTemplateFailureDomain)
    ensures t.Some? ==>
              var same := || (fd.AWS? && t.value.AWS?) || (fd.Azure? && t.value.Azure?) || (fd.GCP? && t.value.GCP?)
                          || (fd.OpenStack? && t.value.OpenStack?) || (fd.VSphere? && t.value.VSphere?)
                          || (fd.Nutanix? && t.value.Nutanix?) || (fd.Generic? && t.value.Generic?);
              if same then fd.Complete(t).Success? else fd.Complete(t) == Failure(MismatchedPlatformType)
  {}

  /** Every field of a completed domain is the domain's own where that is set,
      and the template's where it is not, on every platform. */
  lemma CompletedZones(zone: string, t: string, subnet: string, tsubnet: string)
    ensures GCP(zone).Complete(Some(GCP(t))) == Success(GCP(if zone != "" then zone else t))
    ensures VSphere(zone).Complete(Some(VSphere(t))) == Success(VSphere(if zone != "" then zone else t))
    ensures Nutanix(zone).Complete(Some(Nutanix(t))) == Success(Nutanix(if zone != "" then zone else t))
    ensures Azure(AzureFailureDomain(zone, subnet)).Complete(Some(Azure(AzureFailureDomain(t, tsubnet)))) ==
            Success(Azure(AzureFailureDomain(if zone != "" then zone else t, if subnet != "" then subnet else tsubnet)))
    ensures Generic.Complete(Some(Generic)) == Success(Generic)
  {}

  lemma CompletedAWS(zone: string, t: string, subnet: Option<AWSResourceReference>, tsubnet: Option<AWSResourceReference>)
    ensures AWS(AWSFailureDomain(zone, subnet)).Complete(Some(AWS(AWSFailureDomain(t, tsubnet)))) ==
            Success(AWS(AWSFailureDomain(if zone != "" then zone else t, if subnet.Some? then subnet else tsubnet)))
  {}

  lemma CompletedOpenStack(zone: string, t: string, volume: Option<RootVolume>, tvolume: Option<RootVolume>)
    ensures OpenStack(OpenStackFailureDomain(zone, volume)).Complete(Some(OpenStack(OpenStackFailureDomain(t, tvolume)))).Success?
    ensures var r := OpenStack(OpenStackFailureDomain(zone, volume)).Complete(Some(OpenStack(OpenStackFailureDomain(t, tvolume)))).value;
            && r.OpenStack?
            && r.openstack.availabilityZone == (if zone != "" then zone else t)
            && (r.openstack.rootVolume.Some? <==> volume.Some? || tvolume.Some?)
            && (volume.None? ==> r.openstack.rootVolume == tvolume)
            && (tvolume.None? ==> r.openstack.rootVolume == volume)
            && (volume.Some? && tvolume.Some? ==>
                  r.openstack.rootVolume == Some(RootVolume(
                    if volume.value.availabilityZone != "" then volume.value.availabilityZone else tvolume.value.availabilityZone,
                    if volume.value.volumeType != "" then volume.value.volumeType else tvolume.value.volumeType)))
  {}

  /** Completing twice against one template changes nothing the second time. */
  lemma CompleteIdempotent(fd: FailureDomain, t: Option<FailureDomain>)
    ensures var once := fd.Complete(t);
            once.Success? ==> once.value.Complete(t) == once
  {
    if t.Some? && fd.SamePlatform(t.value) {
      match fd
      case OpenStack(o) => assert o.rootVolume.Some? || o.rootVolume.None?;
      case _ =>
    }
  }

  /** Every failure domain of the list can be completed. */
  predicate AllComplete(fds: seq<FailureDomain>, t: Option<FailureDomain>) {
    forall i :: 0 <= i < |fds| ==> fds[i].Complete(t).Success?
  }

  /** Completes each failure domain of a list, failing at the first that
      cannot be completed. */
  method CompleteFailureDomains(fds: seq<FailureDomain>, t: Option<FailureDomain>) returns (r: Result<seq<FailureDomain>>)
    ensures r.Success? <==> AllComplete(fds, t)
    ensures r.Success? ==>
              |r.value| == |fds| &&
              forall i :: 0 <= i < |fds| ==> fds[i].Complete(t) == Success(r.value[i])
    ensures r.Failure? ==>
              exists i :: 0 <= i < |fds| && fds[i].Complete(t) == Failure(r.error) && AllComplete(fds[..i], t)
  {
    var out: seq<FailureDomain> := [];
    for n := 0 to |fds|
      invariant |out| == n
      invariant forall i :: 0 <= i < n ==> fds[i].Complete(t) == Success(out[i])
    {
      var completed := fds[n].Complete(t);
      if completed.Failure? {
        return Failure(completed.error);
      }
      out := out + [completed.value];
    }
    return Success(out);
  }

  ghost predicate Distinct<T(!new)>(s: seq<T>) {
    forall i, j :: 0 <= i < j < |s| ==> s[i] != s[j]
  }

  /** The items of a list, first occurrences only: what inserting them one by
      one into an empty set leaves. */
  function Dedup(items: seq<FailureDomain>): (r: seq<FailureDomain>)
    ensures Distinct(r)
    ensures forall x :: x in r <==> x in items
  {
    if items == [] then []
    else
      var init := Dedup(items[..|items| - 1]);
      var last := items[|items| - 1];
      assert items == items[..|items| - 1] + [last];
      if last in init then init else init + [last]
  }

  /** More items never disturb the order of those there are. */
  lemma {:induction false} DedupInOrder(items: seq<FailureDomain>, more: seq<FailureDomain>)
    ensures Dedup(items) <= Dedup(items + more)
  {
    if more == [] {
      assert items + more == items;
    } else {
      assert (items + more)[..|items + more| - 1] == items + more[..|more| - 1];
      DedupInOrder(items, more[..|more| - 1]);
    }
  }

  /** A set of failure domains kept as a list in insertion order. */
  class DomainSet {
    var items: seq<FailureDomain>

    ghost predicate Valid() reads this { Distinct(items) }

    constructor ()
      ensures Valid() && items == []
    {
      items := [];
    }

    method Has(item: FailureDomain) returns (found: bool)
      ensures found <==> item in items
    {
      for i := 0 to |items|
        invariant item !in items[..i]
      {
        if items[i] == item { return true; }
      }
      return false;
    }

    method Insert(more: seq<FailureDomain>)
      requires Valid()
      modifies this
      ensures Valid()
      ensures old(items) == [] ==> items == Dedup(more)
      ensures old(items) <= items
      ensures forall x :: x in items <==> x in old(items) || x in more
    {
      for n := 0 to |more|
        invariant Valid()
        invariant old(items) == [] ==> items == Dedup(more[..n])
        invariant old(items) <= items
        invariant forall x :: x in items <==> x in old(items) || x in more[..n]
      {
        var present := Has(more[n]);
        assert more[..n + 1] == more[..n] + [more[n]];
        assert more[..n + 1][..n] == more[..n];
        if !present {
          items := items + [more[n]];
        }
      }
      assert more[..|more|] == more;
    }
  }
}
