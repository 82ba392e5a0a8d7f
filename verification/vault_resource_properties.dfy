/**
  What validation of a vault resource promises: the option loop fails exactly
  when some option is bad, whatever the order of the keys; on success every
  typed field reflects its option or keeps its prior value; validating again
  changes nothing; the per-type requirements are checked last; and the default
  filename and the identity string tell distinct descriptors apart.
*/
module VaultResourceProperties {
  import opened Wrappers
  import opened GoParse
  import opened VaultResources

  /** No option of the map is rejected by the option loop. */
  predicate OptionsOk(options: map<string, string>, fileExists: string -> bool) {
    forall k :: k in options ==> !BadOption(k, options[k], fileExists)
  }

  // ---------------------------------------------------------------------------
  // The option loop, for any order of the keys
  // ---------------------------------------------------------------------------

  /** One option is refused exactly when it is bad, and then with the error kind of its key. */
  lemma {:induction false} ApplyOptionFails(c: Cached, k: string, v: string, fileExists: string -> bool)
    ensures ApplyOption(c, k, v, fileExists).Failure? <==> BadOption(k, v, fileExists)
    ensures ApplyOption(c, k, v, fileExists).Failure? ==>
              k in TypedOptions && ApplyOption(c, k, v, fileExists).error == OptionErrorKind(k)
  {
  }

  /**
    The loop fails exactly when some visited key is bad, and then it reports the
    kind of the first bad key in the order visited.
  */
  lemma {:induction false} RunOptionsError(c: Cached, options: map<string, string>, ks: seq<string>, fileExists: string -> bool)
    requires forall k :: k in ks ==> k in options
    decreases |ks|
    ensures var e := RunOptions(c, options, ks, fileExists).1;
            e.Some? <==> exists i :: 0 <= i < |ks| && BadOption(ks[i], options[ks[i]], fileExists)
    ensures var e := RunOptions(c, options, ks, fileExists).1;
            e.Some? ==>
              exists j :: 0 <= j < |ks| && BadOption(ks[j], options[ks[j]], fileExists) &&
                ks[j] in TypedOptions && e.value == OptionErrorKind(ks[j]) &&
                forall i :: 0 <= i < j ==> !BadOption(ks[i], options[ks[i]], fileExists)
  {
    if ks != [] {
      var k := ks[0];
      ApplyOptionFails(c, k, options[k], fileExists);
      if ApplyOption(c, k, options[k], fileExists).Success? {
        var c' := ApplyOption(c, k, options[k], fileExists).value;
        assert RunOptions(c, options, ks, fileExists) == RunOptions(c', options, ks[1..], fileExists);
        RunOptionsError(c', options, ks[1..], fileExists);
        var e := RunOptions(c, options, ks, fileExists).1;
        if e.Some? {
          FirstBadShift(options, ks, fileExists, e.value);
        } else {
          NoBadShift(options, ks, fileExists);
        }
      }
    }
  }

  /** A good first key moves the first bad key of the rest one place on. */
  lemma {:induction false} FirstBadShift(options: map<string, string>, ks: seq<string>, fileExists: string -> bool, e: Error)
    requires ks != [] && forall k :: k in ks ==> k in options
    requires !BadOption(ks[0], options[ks[0]], fileExists)
    requires exists j :: 0 <= j < |ks[1..]| && BadOption(ks[1..][j], options[ks[1..][j]], fileExists) &&
               ks[1..][j] in TypedOptions && e == OptionErrorKind(ks[1..][j]) &&
               forall i :: 0 <= i < j ==> !BadOption(ks[1..][i], options[ks[1..][i]], fileExists)
    ensures exists j :: 0 <= j < |ks| && BadOption(ks[j], options[ks[j]], fileExists) &&
              ks[j] in TypedOptions && e == OptionErrorKind(ks[j]) &&
              forall i :: 0 <= i < j ==> !BadOption(ks[i], options[ks[i]], fileExists)
  {
    var j :| 0 <= j < |ks[1..]| && BadOption(ks[1..][j], options[ks[1..][j]], fileExists) &&
      ks[1..][j] in TypedOptions && e == OptionErrorKind(ks[1..][j]) &&
      forall i :: 0 <= i < j ==> !BadOption(ks[1..][i], options[ks[1..][i]], fileExists);
    assert ks[j + 1] == ks[1..][j];
    forall i | 0 <= i < j + 1 ensures !BadOption(ks[i], options[ks[i]], fileExists) {
      if i > 0 {
        assert ks[i] == ks[1..][i - 1];
      }
    }
  }

  /** A good first key followed by good keys: no key is bad. */
  lemma {:induction false} NoBadShift(options: map<string, string>, ks: seq<string>, fileExists: string -> bool)
    requires ks != [] && forall k :: k in ks ==> k in options
    requires !BadOption(ks[0], options[ks[0]], fileExists)
    requires !exists i :: 0 <= i < |ks[1..]| && BadOption(ks[1..][i], options[ks[1..][i]], fileExists)
    ensures forall i :: 0 <= i < |ks| ==> !BadOption(ks[i], options[ks[i]], fileExists)
  {
    forall i | 0 <= i < |ks| ensures !BadOption(ks[i], options[ks[i]], fileExists) {
      if i > 0 {
        assert ks[i] == ks[1..][i - 1];
      }
    }
  }

  /** What one accepted option does to the typed fields: it sets its own field, and only that one. */
  lemma {:induction false} ApplyOptionStep(c: Cached, k: string, v: string, fileExists: string -> bool)
    requires ApplyOption(c, k, v, fileExists).Success?
    ensures var c' := ApplyOption(c, k, v, fileExists).value;
            (if k == OptionFormat then c'.format == v else c'.format == c.format) &&
            (if k == OptionUpdate then ParseDuration(v) == Some(c'.update) else c'.update == c.update) &&
            (if k == OptionRevoke then ParseBool(v) == Some(c'.revoked) else c'.revoked == c.revoked) &&
            (if k == OptionRenewal then ParseBool(v) == Some(c'.renewable) else c'.renewable == c.renewable)
  {
  }

  /**
    When the loop succeeds, each typed field holds the parse of its key if that
    key was visited, and otherwise keeps the value it had before the loop.
  */
  lemma {:induction false} RunOptionsCaches(c: Cached, options: map<string, string>, ks: seq<string>, fileExists: string -> bool)
    requires forall k :: k in ks ==> k in options
    requires RunOptions(c, options, ks, fileExists).1.None?
    decreases |ks|
    ensures var r := RunOptions(c, options, ks, fileExists).0;
            (OptionFormat in ks ==> r.format == options[OptionFormat]) &&
            (OptionFormat !in ks ==> r.format == c.format) &&
            (OptionUpdate in ks ==> ParseDuration(options[OptionUpdate]) == Some(r.update)) &&
            (OptionUpdate !in ks ==> r.update == c.update) &&
            (OptionRevoke in ks ==> ParseBool(options[OptionRevoke]) == Some(r.revoked)) &&
            (OptionRevoke !in ks ==> r.revoked == c.revoked) &&
            (OptionRenewal in ks ==> ParseBool(options[OptionRenewal]) == Some(r.renewable)) &&
            (OptionRenewal !in ks ==> r.renewable == c.renewable)
  {
    if ks != [] {
      var k := ks[0];
      assert forall x :: x in ks <==> x == k || x in ks[1..];
      var c' := ApplyOption(c, k, options[k], fileExists).value;
      ApplyOptionStep(c, k, options[k], fileExists);
      RunOptionsCaches(c', options, ks[1..], fileExists);
    }
  }

  /** The loop's verdict, and on success its result, are the same for every order of the keys. */
  lemma {:induction false} OptionsOrderIndependent(c: Cached, options: map<string, string>, ks1: seq<string>, ks2: seq<string>, fileExists: string -> bool)
    requires IsEnumeration(ks1, options) && IsEnumeration(ks2, options)
    ensures RunOptions(c, options, ks1, fileExists).1.None? <==> RunOptions(c, options, ks2, fileExists).1.None?
    ensures RunOptions(c, options, ks1, fileExists).1.None? ==>
              RunOptions(c, options, ks1, fileExists) == RunOptions(c, options, ks2, fileExists)
  {
    RunOptionsFailsIffBad(c, options, ks1, fileExists);
    RunOptionsFailsIffBad(c, options, ks2, fileExists);
    if RunOptions(c, options, ks1, fileExists).1.None? {
      RunOptionsCaches(c, options, ks1, fileExists);
      RunOptionsCaches(c, options, ks2, fileExists);
    }
  }

  /** Over an enumeration of the whole map, the loop fails exactly when some option is bad. */
  lemma {:induction false} RunOptionsFailsIffBad(c: Cached, options: map<string, string>, ks: seq<string>, fileExists: string -> bool)
    requires IsEnumeration(ks, options)
    ensures RunOptions(c, options, ks, fileExists).1.None? <==> OptionsOk(options, fileExists)
  {
    RunOptionsError(c, options, ks, fileExists);
    if !OptionsOk(options, fileExists) {
      var k :| k in options && BadOption(k, options[k], fileExists);
      var i :| 0 <= i < |ks| && ks[i] == k;
    }
  }

  // ---------------------------------------------------------------------------
  // Validation as a whole
  // ---------------------------------------------------------------------------

  /** Validation succeeds exactly for a known type, good options and the type's required keys. */
  lemma {:induction false} ValidateSucceeds(resource: string, options: map<string, string>, c: Cached, ks: seq<string>, fileExists: string -> bool)
    requires IsEnumeration(ks, options)
    ensures Validate(resource, options, c, ks, fileExists).1.None? <==>
              resource in ValidResources && OptionsOk(options, fileExists) &&
              forall k :: k in RequiredOptions(resource) ==> k in options
  {
    RunOptionsFailsIffBad(c, options, ks, fileExists);
  }

  /**
    The three steps in order: an unknown type is reported before any option is
    looked at and leaves the typed fields alone; a bad option is reported with
    its own kind; a missing required key only once the options are good.
  */
  lemma {:induction false} ValidateErrorOrder(resource: string, options: map<string, string>, c: Cached, ks: seq<string>, fileExists: string -> bool)
    requires IsEnumeration(ks, options)
    ensures resource !in ValidResources ==>
              Validate(resource, options, c, ks, fileExists) == (c, Some(UnsupportedType))
    ensures resource in ValidResources && !OptionsOk(options, fileExists) ==>
              exists k :: k in options && BadOption(k, options[k], fileExists) && k in TypedOptions &&
                Validate(resource, options, c, ks, fileExists).1 == Some(OptionErrorKind(k))
    ensures Validate(resource, options, c, ks, fileExists).1 == Some(PkiNeedsCN) <==>
              resource == "pki" && OptionsOk(options, fileExists) && OptionCommonName !in options
    ensures Validate(resource, options, c, ks, fileExists).1 == Some(TplNeedsPath) <==>
              resource == "tpl" && OptionsOk(options, fileExists) && OptionTemplatePath !in options
  {
    RunOptionsError(c, options, ks, fileExists);
    RunOptionsFailsIffBad(c, options, ks, fileExists);
  }

  /**
    On success each typed field holds the parse of its option when the key is
    present, and otherwise keeps its prior value.
  */
  lemma {:induction false} ValidateCaches(resource: string, options: map<string, string>, c: Cached, ks: seq<string>, fileExists: string -> bool)
    requires IsEnumeration(ks, options)
    requires Validate(resource, options, c, ks, fileExists).1.None?
    ensures var r := Validate(resource, options, c, ks, fileExists).0;
            (OptionFormat in options ==> r.format == options[OptionFormat] && r.format in Formats) &&
            (OptionFormat !in options ==> r.format == c.format) &&
            (OptionUpdate in options ==> ParseDuration(options[OptionUpdate]) == Some(r.update)) &&
            (OptionUpdate !in options ==> r.update == c.update) &&
            (OptionRevoke in options ==> ParseBool(options[OptionRevoke]) == Some(r.revoked)) &&
            (OptionRevoke !in options ==> r.revoked == c.revoked) &&
            (OptionRenewal in options ==> ParseBool(options[OptionRenewal]) == Some(r.renewable)) &&
            (OptionRenewal !in options ==> r.renewable == c.renewable)
  {
    RunOptionsCaches(c, options, ks, fileExists);
    RunOptionsFailsIffBad(c, options, ks, fileExists);
    if OptionFormat in options {
      assert !BadOption(OptionFormat, options[OptionFormat], fileExists);
    }
  }

  /** Whether validation fails, and on success its result, do not depend on the order of the keys. */
  lemma {:induction false} ValidateOrderIndependent(resource: string, options: map<string, string>, c: Cached, ks1: seq<string>, ks2: seq<string>, fileExists: string -> bool)
    requires IsEnumeration(ks1, options) && IsEnumeration(ks2, options)
    ensures Validate(resource, options, c, ks1, fileExists).1.None? <==>
              Validate(resource, options, c, ks2, fileExists).1.None?
    ensures Validate(resource, options, c, ks1, fileExists).1.None? ==>
              Validate(resource, options, c, ks1, fileExists) == Validate(resource, options, c, ks2, fileExists)
  {
    OptionsOrderIndependent(c, options, ks1, ks2, fileExists);
  }

  /**
    Validating a descriptor that has just validated succeeds again, in any key
    order, and leaves every typed field as it was.
  */
  lemma {:induction false} ValidateIdempotent(resource: string, options: map<string, string>, c: Cached, ks: seq<string>, ks': seq<string>, fileExists: string -> bool)
    requires IsEnumeration(ks, options) && IsEnumeration(ks', options)
    requires Validate(resource, options, c, ks, fileExists).1.None?
    ensures var c' := Validate(resource, options, c, ks, fileExists).0;
            Validate(resource, options, c', ks', fileExists) == (c', None)
  {
    var c' := Validate(resource, options, c, ks, fileExists).0;
    ValidateSucceeds(resource, options, c, ks, fileExists);
    ValidateSucceeds(resource, options, c', ks', fileExists);
    ValidateCaches(resource, options, c, ks, fileExists);
    ValidateCaches(resource, options, c', ks', fileExists);
  }

  // ---------------------------------------------------------------------------
  // Filenames and identities
  // ---------------------------------------------------------------------------

  /** No supported resource type contains the separators of the filename or the identity string. */
  lemma {:induction false} ResourceTypesHaveNoSeparators(r: string)
    requires r in ValidResources
    ensures '.' !in r && '/' !in r
  {
  }

  /** Joining at a separator that the right part never contains can be undone. */
  lemma {:induction false} SplitAtLast(a1: string, b1: string, a2: string, b2: string, sep: char)
    requires sep !in b1 && sep !in b2
    requires a1 + [sep] + b1 == a2 + [sep] + b2
    ensures a1 == a2 && b1 == b2
  {
    var s := a1 + [sep] + b1;
    assert |b1| == |b2| by {
      assert s[|a1|] == sep && s[|a2|] == sep;
    }
    assert a1 == s[..|a1|] && a2 == s[..|a2|];
    assert b1 == s[|a1| + 1..] && b2 == s[|a2| + 1..];
  }

  /** Joining at a separator that the left part never contains can be undone. */
  lemma {:induction false} SplitAtFirst(a1: string, b1: string, a2: string, b2: string, sep: char)
    requires sep !in a1 && sep !in a2
    requires a1 + [sep] + b1 == a2 + [sep] + b2
    ensures a1 == a2 && b1 == b2
  {
    var s := a1 + [sep] + b1;
    assert |a1| == |a2| by {
      assert s[|a1|] == sep && s[|a2|] == sep;
    }
    assert a1 == s[..|a1|] && a2 == s[..|a2|];
    assert b1 == s[|a1| + 1..] && b2 == s[|a2| + 1..];
  }

  /**
    Without an "fn" override, two descriptors of supported types that write to
    the same file have the same name and the same type.
  */
  lemma {:induction false} DefaultFilenameInjective(a: VaultResource, b: VaultResource)
    requires a.resource in ValidResources && b.resource in ValidResources
    requires OptionFilename !in a.options && OptionFilename !in b.options
    requires a.GetFilename() == b.GetFilename()
    ensures a.name == b.name && a.resource == b.resource
  {
    ResourceTypesHaveNoSeparators(a.resource);
    ResourceTypesHaveNoSeparators(b.resource);
    assert a.name + "." + a.resource == a.name + ['.'] + a.resource;
    assert b.name + "." + b.resource == b.name + ['.'] + b.resource;
    SplitAtLast(a.name, a.resource, b.name, b.resource, '.');
  }

  /** Two descriptors of supported types with the same identity string have the same type and name. */
  lemma {:induction false} IdentityInjective(a: VaultResource, b: VaultResource)
    requires a.resource in ValidResources && b.resource in ValidResources
    requires a.String() == b.String()
    ensures a.resource == b.resource && a.name == b.name
  {
    ResourceTypesHaveNoSeparators(a.resource);
    ResourceTypesHaveNoSeparators(b.resource);
    assert a.resource + "/" + a.name == a.resource + ['/'] + a.name;
    assert b.resource + "/" + b.name == b.resource + ['/'] + b.name;
    SplitAtFirst(a.resource, a.name, b.resource, b.name, '/');
  }

  // ---------------------------------------------------------------------------
  // Clients
  // ---------------------------------------------------------------------------

  /**
    Whatever order the two options are visited in, the secret validates and
    caches exactly those two options.
  */
  lemma {:induction false} SecretValidates(c: Cached, ks: seq<string>, fileExists: string -> bool)
    requires IsEnumeration(ks, map[OptionFormat := "json", OptionUpdate := "2h"])
    ensures Validate("secret", map[OptionFormat := "json", OptionUpdate := "2h"], c, ks, fileExists)
         == (c.(format := "json", update := 7_200_000_000_000), None)
  {
    var opts := map[OptionFormat := "json", OptionUpdate := "2h"];
    assert OptionsOk(opts, fileExists) by {
      ParseTwoHours();
      assert !BadOption(OptionFormat, opts[OptionFormat], fileExists);
      assert !BadOption(OptionUpdate, opts[OptionUpdate], fileExists);
    }
    ValidateSucceeds("secret", opts, c, ks, fileExists);
    ValidateCaches("secret", opts, c, ks, fileExists);
    ParseTwoHours();
  }

  /**
    A secret named db-pass with json output and a two-hour update validates,
    caches both options, validates again in another key order without change,
    and writes db-pass.secret.
  */
  method SecretExample(fileExists: string -> bool, ks: seq<string>, ks': seq<string>)
    requires IsEnumeration(ks, map[OptionFormat := "json", OptionUpdate := "2h"])
    requires IsEnumeration(ks', map[OptionFormat := "json", OptionUpdate := "2h"])
  {
    var r := new VaultResource();
    r.resource, r.name, r.options := "secret", "db-pass", map[OptionFormat := "json", OptionUpdate := "2h"];
    assert r.GetFilename() == "db-pass.secret" by {
      assert OptionFilename != OptionFormat && OptionFilename != OptionUpdate;
      assert "db-pass" + "." + "secret" == "db-pass.secret";
    }
    SecretValidates(r.Cache(), ks, fileExists);
    var err := r.IsValid(fileExists, ks);
    assert err == None;
    assert r.format == "json" && r.update == 7_200_000_000_000;
    assert r.GetFilename() == "db-pass.secret";

    var before := r.Cache();
    SecretValidates(before, ks', fileExists);
    err := r.IsValid(fileExists, ks');
    assert err == None && r.Cache() == before;
  }

  /** A pki resource named web without options is refused for want of a common name. */
  method PkiExample(fileExists: string -> bool) {
    var r := new VaultResource();
    r.resource, r.name := "pki", "web";
    var err := r.IsValid(fileExists, []);
    assert err == Some(PkiNeedsCN);
    assert r.String() == "pki/web";
  }
}
