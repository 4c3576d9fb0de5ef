/**
 * instanceConfig, its validation and the per-request metadata record:
 * instanceConfig.validate, genSuffix and instanceConfig.RenderMetaData.
 */
module Metadata {
  import opened Wrappers
  import opened Hex
  import opened Externals

  /** Suffix length in bytes when hostnameSuffixSize is zero or negative. */
  const DefaultSuffixLength: nat := 4

  datatype InstanceConfig = InstanceConfig(
    hostname: string,
    enableInstanceIDSuffix: bool,
    enableHostnameSuffix: bool,
    generatedSuffixSize: int)

  datatype InstanceConfigError = HostnameNotSet

  /** instanceConfig.validate: the hostname must be set. */
  function ValidateInstanceConfig(ic: InstanceConfig): (r: Option<InstanceConfigError>)
    ensures r == None <==> ic.hostname != ""
    ensures r != None ==> r == Some(HostnameNotSet)
  {
    if ic.hostname == "" then Some(HostnameNotSet) else None
  }

  /** The metaData struct: instance-id, local-hostname, hostname. */
  datatype MetaData = MetaData(instanceId: string, localHostname: string, hostname: string)

  datatype RenderError = ReadRandom | MarshalMetaData

  /** The number of random bytes genSuffix reads for a requested size n. */
  function SuffixLength(n: int): (k: nat)
    ensures k > 0
    ensures n > 0 ==> k == n
    ensures n <= 0 ==> k == DefaultSuffixLength
  {
    if n <= 0 then DefaultSuffixLength else n
  }

  /** rand.Read into a buffer of n bytes. */
  function RandomBytes(e: Entropy, n: nat): (r: Option<seq<byte>>)
    ensures r.Some? <==> e.Stream?
    ensures r.Some? ==> |r.value| == n && forall i :: 0 <= i < n ==> r.value[i] == e.next(i)
  {
    match e
    case Unavailable => None
    case Stream(next) => Some(seq(n, i requires 0 <= i => next(i)))
  }

  /** A well-formed generated suffix: a dash and 2 * SuffixLength(n) lowercase hex digits. */
  predicate IsSuffix(s: string, n: int) {
    && |s| == 1 + 2 * SuffixLength(n)
    && s[0] == '-'
    && forall i :: 1 <= i < |s| ==> IsLowerHexDigit(s[i])
  }

  /** genSuffix */
  function GenSuffix(n: int, e: Entropy): (r: Result<string, RenderError>)
    ensures r.Failure? <==> e.Unavailable?
    ensures r.Failure? ==> r.error == ReadRandom
    ensures r.Success? ==> IsSuffix(r.value, n)
    ensures r.Success? ==> Decode(r.value[1..]) == RandomBytes(e, SuffixLength(n))
  {
    match RandomBytes(e, SuffixLength(n))
    case None => Failure(ReadRandom)
    case Some(bs) =>
      var s := "-" + Encode(bs);
      assert s[1..] == Encode(bs);
      DecodeEncode(bs);
      Success(s)
  }

  /** The suffix both fields receive within one call. */
  function SharedSuffix(ic: InstanceConfig, e: Entropy): Result<string, RenderError> {
    if ic.enableHostnameSuffix || ic.enableInstanceIDSuffix then GenSuffix(ic.generatedSuffixSize, e)
    else Success("")
  }

  /** The record RenderMetaData serialises, before serialisation. */
  function BuildMetaData(ic: InstanceConfig, serial: string, e: Entropy): (r: Result<MetaData, RenderError>)
    ensures r.Failure? <==> (ic.enableHostnameSuffix || ic.enableInstanceIDSuffix) && e.Unavailable?
    ensures r.Success? ==> IsRecordFor(r.value, ic, serial)
    ensures r.Success? && ic.enableHostnameSuffix ==>
      r.value.hostname == ic.hostname + GenSuffix(ic.generatedSuffixSize, e).value
    ensures r.Success? && ic.enableInstanceIDSuffix ==>
      r.value.instanceId == "i-" + serial + GenSuffix(ic.generatedSuffixSize, e).value
  {
    match SharedSuffix(ic, e)
    case Failure(err) => Failure(err)
    case Success(suffix) =>
      var host := if ic.enableHostnameSuffix then ic.hostname + suffix else ic.hostname;
      var id := if ic.enableInstanceIDSuffix then "i-" + serial + suffix else "i-" + serial;
      var md := MetaData(id, host, host);
      assert ic.enableHostnameSuffix ==> host[|ic.hostname|..] == suffix;
      assert ic.enableInstanceIDSuffix ==> id[|serial| + 2..] == suffix;
      Success(md)
  }

  /**
   * What a record for ic and serial looks like: the instance ID is "i-" +
   * serial, both hostnames are the configured hostname, each with a generated
   * suffix exactly when its flag is set, and the suffix is the same in both.
   */
  predicate IsRecordFor(md: MetaData, ic: InstanceConfig, serial: string) {
    var idBase, n := "i-" + serial, ic.generatedSuffixSize;
    && md.localHostname == md.hostname
    && |idBase| <= |md.instanceId| && md.instanceId[..|idBase|] == idBase
    && |ic.hostname| <= |md.hostname| && md.hostname[..|ic.hostname|] == ic.hostname
    && (if ic.enableInstanceIDSuffix then IsSuffix(md.instanceId[|idBase|..], n) else md.instanceId == idBase)
    && (if ic.enableHostnameSuffix then IsSuffix(md.hostname[|ic.hostname|..], n) else md.hostname == ic.hostname)
    && (ic.enableInstanceIDSuffix && ic.enableHostnameSuffix ==>
          md.instanceId[|idBase|..] == md.hostname[|ic.hostname|..])
  }

  /** The YAML mapping yaml.Marshal sees for a metaData value, keyed by its tags. */
  function MetaDataDocument(md: MetaData): Document {
    map["instance-id" := Scalar(md.instanceId),
        "local-hostname" := Scalar(md.localHostname),
        "hostname" := Scalar(md.hostname)]
  }

  /** instanceConfig.RenderMetaData */
  function RenderMetaData(env: Env, ic: InstanceConfig, serial: string, e: Entropy): (r: Result<seq<byte>, RenderError>)
    ensures r.Failure? <==>
      ((ic.enableHostnameSuffix || ic.enableInstanceIDSuffix) && e.Unavailable?)
      || (BuildMetaData(ic, serial, e).Success? && env.marshal(MetaDataDocument(BuildMetaData(ic, serial, e).value)).None?)
    ensures r.Failure? ==>
      r.error == if (ic.enableHostnameSuffix || ic.enableInstanceIDSuffix) && e.Unavailable? then ReadRandom else MarshalMetaData
    ensures r.Success? ==>
      && BuildMetaData(ic, serial, e).Success?
      && Some(r.value) == env.marshal(MetaDataDocument(BuildMetaData(ic, serial, e).value))
  {
    match BuildMetaData(ic, serial, e)
    case Failure(err) => Failure(err)
    case Success(md) =>
      match env.marshal(MetaDataDocument(md))
      case None => Failure(MarshalMetaData)
      case Some(bytes) => Success(bytes)
  }

  /** With no suffix flag set the random source is never read: the record is
      the same whatever it would have yielded. */
  lemma NoFlagsIgnoresEntropy(ic: InstanceConfig, serial: string, e1: Entropy, e2: Entropy)
    requires !ic.enableHostnameSuffix && !ic.enableInstanceIDSuffix
    ensures BuildMetaData(ic, serial, e1) == BuildMetaData(ic, serial, e2)
    ensures BuildMetaData(ic, serial, e1) == Success(MetaData("i-" + serial, ic.hostname, ic.hostname))
  {
  }

  /** With both flags set, hostname, local-hostname and instance-id carry one
      suffix, and it is the hex encoding of the bytes read. */
  lemma {:induction false} SuffixSharedAndFromEntropy(ic: InstanceConfig, serial: string, e: Entropy)
    requires ic.enableHostnameSuffix && ic.enableInstanceIDSuffix && e.Stream?
    ensures var md := BuildMetaData(ic, serial, e).value;
      var bs := RandomBytes(e, SuffixLength(ic.generatedSuffixSize)).value;
      && md.hostname == md.localHostname == ic.hostname + "-" + Encode(bs)
      && md.instanceId == "i-" + serial + "-" + Encode(bs)
  {
    var bs := RandomBytes(e, SuffixLength(ic.generatedSuffixSize)).value;
    assert GenSuffix(ic.generatedSuffixSize, e) == Success("-" + Encode(bs));
  }
}
