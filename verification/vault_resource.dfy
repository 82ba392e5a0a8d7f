/**
  The vault resource descriptor: a resource type, a name, a raw option map and
  four typed fields that validation derives from that map and caches.

  The first half of the module is the specification, on values: what one pass
  of the option loop does to the cached fields for a given order of the keys,
  and what validation as a whole returns. The second half is the descriptor
  itself, a class whose IsValid and IsValidOptions update its fields in place
  and are proved against that specification.
*/
module VaultResources {
  import opened Wrappers
  import opened GoParse

  // ---------------------------------------------------------------------------
  // Option keys, formats and resource types
  // ---------------------------------------------------------------------------

  const OptionFilename := "fn"
  const OptionFormat := "fmt"
  const OptionCommonName := "cn"
  const OptionTemplatePath := "tpl"
  const OptionRenewal := "rn"
  const OptionRevoke := "rv"
  const OptionUpdate := "up"

  /** The strings the anchored format pattern (yaml|json|ini|txt|cert|csv) matches. */
  const Formats: set<string> := {"yaml", "json", "ini", "txt", "cert", "csv"}

  /** The resource types that may be retrieved from vault. */
  const ValidResources: set<string> := {"pki", "aws", "secret", "mysql", "tpl", "postgres", "cassandra"}

  /** One kind per error the validation can report. */
  datatype Error =
    | UnsupportedType   // the resource type is not one of ValidResources
    | InvalidFormat     // "fmt" is not one of Formats
    | InvalidDuration   // "up" is not a duration
    | InvalidRevoke     // "rv" is not a boolean
    | InvalidRenewal    // "rn" is not a boolean
    | TemplateMissing   // "tpl" names a file that does not exist
    | PkiNeedsCN        // a pki resource without "cn"
    | TplNeedsPath      // a tpl resource without "tpl"

  /** The typed fields that validation derives from the option map; update is in nanoseconds. */
  datatype Cached = Cached(format: string, renewable: bool, revoked: bool, update: int)

  // ---------------------------------------------------------------------------
  // Specification of the option loop
  // ---------------------------------------------------------------------------

  /** ks lists every key of options exactly once: one possible order of Go's map iteration. */
  predicate IsEnumeration(ks: seq<string>, options: map<string, string>) {
    (forall i, j :: 0 <= i < j < |ks| ==> ks[i] != ks[j]) &&
    (forall k :: k in options ==> k in ks) &&
    (forall k :: k in ks ==> k in options)
  }

  /** The keys whose value the option loop checks. */
  const TypedOptions: set<string> := {OptionFormat, OptionUpdate, OptionRevoke, OptionRenewal, OptionTemplatePath}

  /**
    Whether the option loop rejects key k with value v, stated key by key:
    fn, cn and unknown keys are never rejected.
  */
  predicate BadOption(k: string, v: string, fileExists: string -> bool) {
    (k == OptionFormat && v !in Formats) ||
    (k == OptionUpdate && ParseDuration(v).None?) ||
    (k == OptionRevoke && ParseBool(v).None?) ||
    (k == OptionRenewal && ParseBool(v).None?) ||
    (k == OptionTemplatePath && !fileExists(v))
  }

  /** The error kind the option loop reports for a rejected key. */
  function OptionErrorKind(k: string): Error
    requires k in TypedOptions
  {
    if k == OptionFormat then InvalidFormat
    else if k == OptionUpdate then InvalidDuration
    else if k == OptionRevoke then InvalidRevoke
    else if k == OptionRenewal then InvalidRenewal
    else TemplateMissing
  }

  /** One iteration of the option loop: the cached fields after key opt with value val, or its error. */
  function ApplyOption(c: Cached, opt: string, val: string, fileExists: string -> bool): Result<Cached, Error>
  {
    if opt == OptionFormat then
      if val in Formats then Success(c.(format := val)) else Failure(InvalidFormat)
    else if opt == OptionUpdate then
      match ParseDuration(val)
      case None => Failure(InvalidDuration)
      case Some(d) => Success(c.(update := d))
    else if opt == OptionRevoke then
      match ParseBool(val)
      case None => Failure(InvalidRevoke)
      case Some(b) => Success(c.(revoked := b))
    else if opt == OptionRenewal then
      match ParseBool(val)
      case None => Failure(InvalidRenewal)
      case Some(b) => Success(c.(renewable := b))
    else if opt == OptionTemplatePath then
      if fileExists(val) then Success(c) else Failure(TemplateMissing)
    else
      // fn and cn are accepted unchecked; unknown keys are ignored
      Success(c)
  }

  /**
    The option loop run over the keys in the order ks: the cached fields when it
    stops, and the error of the first rejected key, if any. Fields set by keys
    before that one stay set, as they do in the source.
  */
  function RunOptions(c: Cached, options: map<string, string>, ks: seq<string>, fileExists: string -> bool): (Cached, Option<Error>)
    requires forall k :: k in ks ==> k in options
    decreases |ks|
  {
    if ks == [] then (c, None)
    else
      match ApplyOption(c, ks[0], options[ks[0]], fileExists)
      case Failure(e) => (c, Some(e))
      case Success(c') => RunOptions(c', options, ks[1..], fileExists)
  }

  // ---------------------------------------------------------------------------
  // Per-type requirements and validation as a whole
  // ---------------------------------------------------------------------------

  /** The option keys each resource type requires. */
  function RequiredOptions(resource: string): set<string> {
    if resource == "pki" then {OptionCommonName}
    else if resource == "tpl" then {OptionTemplatePath}
    else {}
  }

  /** isValidResource: a pki resource needs a common name, a tpl resource a template path. */
  function IsValidResource(resource: string, options: map<string, string>): (e: Option<Error>)
    ensures e.None? <==> forall k :: k in RequiredOptions(resource) ==> k in options
    ensures e.Some? ==> e.value in {PkiNeedsCN, TplNeedsPath}
  {
    if resource == "pki" && OptionCommonName !in options then Some(PkiNeedsCN)
    else if resource == "tpl" && OptionTemplatePath !in options then Some(TplNeedsPath)
    else None
  }

  /**
    IsValid, step by step: the resource type, then the option loop over the keys
    in the order ks, then the per-type requirements; the first error wins.
  */
  function Validate(resource: string, options: map<string, string>, c: Cached, ks: seq<string>, fileExists: string -> bool): (Cached, Option<Error>)
    requires forall k :: k in ks ==> k in options
  {
    if resource !in ValidResources then (c, Some(UnsupportedType))
    else
      var (c', e) := RunOptions(c, options, ks, fileExists);
      if e.Some? then (c', e) else (c', IsValidResource(resource, options))
  }

  // ---------------------------------------------------------------------------
  // The descriptor
  // ---------------------------------------------------------------------------

  class VaultResource {
    /** the namespace (type) of the resource */
    var resource: string
    /** the name of the resource */
    var name: string
    /** the output format */
    var format: string
    /** whether the lease should be renewed */
    var renewable: bool
    /** whether an old lease should be revoked */
    var revoked: bool
    /** the lease override, in nanoseconds */
    var update: int
    /** the raw options */
    var options: map<string, string>

    /** defaultVaultResource: yaml output, no renewal, no revocation, no options. */
    constructor ()
      ensures format == "yaml" && !renewable && !revoked && update == 0
      ensures resource == "" && name == "" && options == map[]
    {
      resource, name := "", "";
      format, renewable, revoked, update := "yaml", false, false, 0;
      options := map[];
    }

    /** The typed fields, as one value. */
    function Cache(): Cached
      reads this`format, this`renewable, this`revoked, this`update
    {
      Cached(format, renewable, revoked, update)
    }

    /**
      The output filename: the "fn" option verbatim, otherwise the name, a dot
      and the resource type, each recoverable at its position.
    */
    function GetFilename(): (f: string)
      reads this`options, this`name, this`resource
      ensures OptionFilename in options ==> f == options[OptionFilename]
      ensures OptionFilename !in options ==>
                |f| == |name| + 1 + |resource| && f[..|name|] == name &&
                f[|name|] == '.' && f[|name| + 1..] == resource
    {
      if OptionFilename in options then options[OptionFilename] else name + "." + resource
    }

    /** The descriptor's identity: the resource type, a slash and the name. */
    function String(): (s: string)
      reads this`resource, this`name
      ensures |s| == |resource| + 1 + |name| && s[..|resource|] == resource
      ensures s[|resource|] == '/' && s[|resource| + 1..] == name
    {
      resource + "/" + name
    }

    /**
      isValidOptions: visits the options in the order ks and converts each
      recognised one into its typed field, returning at the first bad one.
    */
    method IsValidOptions(fileExists: string -> bool, ks: seq<string>) returns (err: Option<Error>)
      requires IsEnumeration(ks, options)
      modifies this`format, this`renewable, this`revoked, this`update
      ensures (Cache(), err) == RunOptions(old(Cache()), options, ks, fileExists)
    {
      var i := 0;
      while i < |ks|
        invariant 0 <= i <= |ks|
        invariant RunOptions(Cache(), options, ks[i..], fileExists) == RunOptions(old(Cache()), options, ks, fileExists)
      {
        var opt := ks[i];
        var val := options[opt];
        assert ks[i..][0] == opt && ks[i..][1..] == ks[i + 1..];
        if opt == OptionFormat {
          if options[OptionFormat] !in Formats {
            return Some(InvalidFormat);
          }
          format := val;
        } else if opt == OptionUpdate {
          var duration := ParseDuration(val);
          if duration.None? {
            return Some(InvalidDuration);
          }
          update := duration.value;
        } else if opt == OptionRevoke {
          var choice := ParseBool(val);
          if choice.None? {
            return Some(InvalidRevoke);
          }
          revoked := choice.value;
        } else if opt == OptionRenewal {
          var choice := ParseBool(val);
          if choice.None? {
            return Some(InvalidRenewal);
          }
          renewable := choice.value;
        } else if opt == OptionTemplatePath {
          if !fileExists(val) {
            return Some(TemplateMissing);
          }
        }
        // fn and cn are accepted unchecked; unknown keys are ignored
        i := i + 1;
      }
      return None;
    }

    /**
      IsValid: checks the resource type, then the options (caching the typed
      fields), then the options the resource type requires.
    */
    method IsValid(fileExists: string -> bool, ks: seq<string>) returns (err: Option<Error>)
      requires IsEnumeration(ks, options)
      modifies this`format, this`renewable, this`revoked, this`update
      ensures (Cache(), err) == Validate(resource, options, old(Cache()), ks, fileExists)
      ensures GetFilename() == old(GetFilename()) && String() == old(String())
    {
      if resource !in ValidResources {
        return Some(UnsupportedType);
      }
      err := IsValidOptions(fileExists, ks);
      if err.Some? {
        return;
      }
      err := IsValidResource(resource, options);
    }
  }
}
