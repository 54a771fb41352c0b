/** FabricServiceId (Containers/FabricServiceId.cs): the address of one
    service instance, built as "application/serviceType/instance" with the
    separators '|' and '.' of the instance id turned into '/', and every
    trailing '/' removed. A Uri is represented by the text it is built from. */
module FabricServiceIds {
  import opened Wrappers

  datatype FabricServiceId = FabricServiceId(ServiceUri: string, ApplicationNameUri: Option<string>)

  /** String.Replace(char, char): every occurrence of `from` becomes `to`. */
  function ReplaceChar(s: string, from: char, to: char): (r: string)
    ensures |r| == |s|
    ensures forall i :: 0 <= i < |s| ==> r[i] == (if s[i] == from then to else s[i])
  {
    if s == [] then [] else [if s[0] == from then to else s[0]] + ReplaceChar(s[1..], from, to)
  }

  /** String.TrimEnd(char): the string without its trailing run of `c`. */
  function TrimEnd(s: string, c: char): (r: string)
    ensures |r| <= |s| && r == s[..|r|]
    ensures r == [] || r[|r| - 1] != c
    ensures forall i :: |r| <= i < |s| ==> s[i] == c
  {
    if s == [] || s[|s| - 1] != c then s else TrimEnd(s[..|s| - 1], c)
  }

  /** The instance id with both separator characters replaced by '/'. */
  function ScrubInstanceId(instanceId: string): (r: string)
    ensures |r| == |instanceId|
    ensures forall i :: 0 <= i < |instanceId| ==>
      r[i] == (if instanceId[i] in {'|', '.'} then '/' else instanceId[i])
  {
    ReplaceChar(ReplaceChar(instanceId, '|', '/'), '.', '/')
  }

  /** The string the service Uri is built from, before trimming. */
  function ServicePath(applicationName: string, serviceType: string, instanceId: string): string
  {
    applicationName + "/" + serviceType + "/" + ScrubInstanceId(instanceId)
  }

  /** FabricServiceId(string applicationName, string serviceType, string instanceId):
      the service address never ends in '/' and is the built path with only
      '/' characters removed from its end. */
  function FromParts(applicationName: string, serviceType: string, instanceId: string): (f: FabricServiceId)
    ensures f.ApplicationNameUri == Some(applicationName)
    ensures var path := ServicePath(applicationName, serviceType, instanceId);
      && (f.ServiceUri == [] || f.ServiceUri[|f.ServiceUri| - 1] != '/')
      && |f.ServiceUri| <= |path| && f.ServiceUri == path[..|f.ServiceUri|]
      && forall i :: |f.ServiceUri| <= i < |path| ==> path[i] == '/'
  {
    FabricServiceId(TrimEnd(ServicePath(applicationName, serviceType, instanceId), '/'), Some(applicationName))
  }

  /** FabricServiceId(Uri id): the service address as given, no application name. */
  function FromUri(id: string): (f: FabricServiceId)
    ensures f.ServiceUri == id && f.ApplicationNameUri == None
  {
    FabricServiceId(id, None)
  }

  /** When the instance id ends in a character that is not a separator,
      nothing is trimmed: the address is exactly app/type/instance. */
  lemma NoTrimForPlainInstanceEnd(applicationName: string, serviceType: string, instanceId: string)
    requires |instanceId| > 0 && instanceId[|instanceId| - 1] !in {'|', '.', '/'}
    ensures FromParts(applicationName, serviceType, instanceId).ServiceUri
         == applicationName + "/" + serviceType + "/" + ScrubInstanceId(instanceId)
  {
    var path := ServicePath(applicationName, serviceType, instanceId);
    assert path[|path| - 1] == ScrubInstanceId(instanceId)[|instanceId| - 1];
  }

  /** An instance id made only of separators leaves just "app/type" with its
      trailing slashes trimmed: the instance contributes nothing. */
  lemma SeparatorOnlyInstanceVanishes(applicationName: string, serviceType: string, instanceId: string)
    requires forall i :: 0 <= i < |instanceId| ==> instanceId[i] in {'|', '.', '/'}
    ensures FromParts(applicationName, serviceType, instanceId).ServiceUri
         == TrimEnd(applicationName + "/" + serviceType, '/')
  {
    var prefix := applicationName + "/" + serviceType;
    TrimSlashRun(prefix, "/" + ScrubInstanceId(instanceId));
    assert ServicePath(applicationName, serviceType, instanceId) == prefix + ("/" + ScrubInstanceId(instanceId));
  }

  /** Trimming a string followed by a run of '/' is trimming the string. */
  lemma {:induction false} TrimSlashRun(s: string, run: string)
    requires forall i :: 0 <= i < |run| ==> run[i] == '/'
    ensures TrimEnd(s + run, '/') == TrimEnd(s, '/')
    decreases |run|
  {
    if run != [] {
      assert (s + run)[..|s + run| - 1] == s + run[..|run| - 1];
      TrimSlashRun(s, run[..|run| - 1]);
    } else {
      assert s + run == s;
    }
  }
}
