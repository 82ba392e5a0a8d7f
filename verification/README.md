# Vault resource descriptor

A model of the resource descriptor of vault-sidekick (`vault_resource.go`).

A descriptor names a resource held in Vault by two strings:
- a type, such as `pki`, `secret` or `tpl`;
- a name.

It also carries a raw map of options (string to string) and four typed fields that validation derives from that map: the output format, whether the lease is renewed, whether an old lease is revoked, and a lease update interval.

Validation (`IsValid`) is a fail-fast sequence of three steps:
1. The resource type must be one of seven supported types.
2. A loop over the option map converts each recognised option into its typed field, in place. It stops at the first option whose value is bad.
3. A `pki` descriptor must have a common name (`cn`), and a `tpl` descriptor a template path (`tpl`).

The descriptor also derives two strings:
- its output filename (`GetFilename`): the `fn` option, or else `name.resource`;
- its identity string (`String`): `resource/name`.

The project has four files:
- `wrappers.dfy`: the `Option` and `Result` datatypes.
- `go_parse.dfy` (module `GoParse`): the two Go standard-library parsers the option loop calls. `strconv.ParseBool` uses its exact table of spellings. `time.ParseDuration` is modelled on integer segments. It is proved against its inverse (`SegmentsTotalOfFormat`, `ParseFormattedDuration`): durations written out segment by segment read back as the sum of their segments.
- `vault_resource.dfy` (module `VaultResources`): the option keys, the format and type sets, and the error kinds. It also holds the specification functions on values:
  - `ApplyOption`: one step of the option loop;
  - `RunOptions`: the loop over a given key order;
  - `IsValidResource`: the per-type requirements;
  - `Validate`: the whole of `IsValid`.

  Finally it defines the class `VaultResource`. The methods `IsValidOptions` and `IsValid` update its fields in place and are proved against `RunOptions` and `Validate`.
- `vault_resource_properties.dfy` (module `VaultResourceProperties`):
  - what validation promises, for every order of the keys;
  - two worked client methods.

Go iterates a map in an unspecified order. The loop therefore takes a key sequence `ks`, which must be an enumeration of the option map: every key exactly once. Every property about the loop holds for every such `ks`, and the order-independence lemmas compare two of them.

The option map, the resource type and the name are left out of the `modifies` clauses of `IsValidOptions` and `IsValid`. So the verifier itself establishes that validation never changes them. `IsValid` also states that the filename and the identity string are unchanged.

## Model

| member | source | states |
|---|---|---|
| VaultResources.VaultResource.constructor | vault_resource.go:58-65 | a fresh descriptor has format yaml, renewal and revocation off, a zero update interval and an empty option map |
| VaultResources.VaultResource.GetFilename | vault_resource.go:87-93 | the `fn` option verbatim when present (the empty string included); otherwise the name, then a dot at the position equal to the name's length, then the resource type, each recoverable by slicing at that position |
| VaultResources.VaultResource.String | vault_resource.go:174-176 | the identity string is the resource type, then a slash at the position equal to the type's length, then the name, each recoverable by slicing at that position |
| VaultResources.IsValidResource | vault_resource.go:116-129 | succeeds exactly when every key the type requires is present (cn for pki, tpl for tpl, nothing for the others); its only errors are the two per-type kinds |
| VaultResources.VaultResource.IsValidOptions | vault_resource.go:132-171 | walking the keys in the order given leaves the typed fields, and returns the error, that `RunOptions` computes from the old fields: fields set before the first bad key stay set; only the four typed fields may change |
| VaultResources.VaultResource.IsValid | vault_resource.go:96-113 | the new typed fields and the error are those `Validate` computes from the old fields (type check, then options, then requirements); filename and identity string are unchanged |
| VaultResourceProperties.RunOptionsError | vault_resource.go:134-167 | the loop fails iff some visited key is bad, and then reports the error kind of the first bad key in visiting order |
| VaultResourceProperties.RunOptionsCaches | vault_resource.go:136-158 | on success each typed field holds the parse of its key if the key was visited, and otherwise keeps its prior value |
| VaultResourceProperties.RunOptionsFailsIffBad | vault_resource.go:134-171 | over an enumeration of the whole map, the loop succeeds iff no option is bad (fn, cn and unknown keys never are) |
| VaultResourceProperties.OptionsOrderIndependent | vault_resource.go:134-168 | two enumerations of the same map agree on whether the loop fails, and on success they yield the same typed fields |
| VaultResourceProperties.ValidateSucceeds | vault_resource.go:96-113 | validation succeeds iff the type is supported, every option is good and every required key is present |
| VaultResourceProperties.ValidateErrorOrder | vault_resource.go:97-110 | an unsupported type is reported before any option is read and leaves the typed fields unchanged; a bad option is reported with its own kind; the pki and tpl errors arise iff the options are good and the required key is missing |
| VaultResourceProperties.ValidateCaches | vault_resource.go:136-158 | after a successful validation, format equals options["fmt"] and is one of the six formats, update, revoked and renewable hold the parses of up, rv and rn, and each absent key leaves its field at its prior value |
| VaultResourceProperties.ValidateOrderIndependent | vault_resource.go:96-113 | whether validation fails, and on success its result, is the same for every iteration order of the option map |
| VaultResourceProperties.ValidateIdempotent | vault_resource.go:96-113 | validating again after a success, in any key order and against the same `fileExists`, succeeds and leaves every typed field unchanged |
| VaultResourceProperties.DefaultFilenameInjective | vault_resource.go:92 | without an fn override, two descriptors of supported types with the same filename have the same name and type |
| VaultResourceProperties.IdentityInjective | vault_resource.go:174-176 | two descriptors of supported types with the same identity string have the same type and name |
| VaultResourceProperties.SecretValidates | vault_resource.go:96-113 | a secret with fmt=json and up=2h validates in either key order and caches json and two hours, whatever the prior fields |
| GoParse.ParseBool | vault_resource.go:148-158 | true exactly for 1, t, T, TRUE, true, True; false exactly for 0, f, F, FALSE, false, False; an error for every other string |
| GoParse.ParseDuration | vault_resource.go:142-146 | every accepted duration fits an int64 count of nanoseconds, and the empty string is refused |
| GoParse.DigitRunMaximal | vault_resource.go:142 | the leading-digits scan stops exactly at the first non-digit |
| GoParse.UnitRunMaximal | vault_resource.go:142 | the unit scan stops exactly at the first character that can start a number |
| GoParse.SegmentsTotalOfFormat | vault_resource.go:142 | any sequence of integer-and-unit segments, written out, totals to the sum of its segments in nanoseconds |
| GoParse.ParseFormattedDuration | vault_resource.go:142-146 | a literal written from segments, with an optional minus sign, parses to its signed sum of nanoseconds when that fits an int64, and is refused otherwise |
| GoParse.ParseTwoHours | vault_resource.go:142 | "2h" parses to 7.2e12 nanoseconds |
| GoParse.ParseHourAndHalf | vault_resource.go:142 | "1h30m" parses to 5.4e12 nanoseconds |
| GoParse.ParseDurationRejects | vault_resource.go:142-145 | a literal with no digits ("abc") and a number without a unit ("10") are refused |

## Left out

- `fileExists` (called at vault_resource.go:164) is defined outside this file and probes the filesystem. It is a parameter `fileExists: string -> bool` of every operation that needs it. Its discarded error return is not modelled.
- VaultResourceProperties.ValidateIdempotent: assumes the filesystem does not change between the two validations. Both calls take the same `fileExists`, while in Go each `IsValid` probes the template file again, so a template removed in between makes the second call fail. `SecretExample` makes the same assumption.
- Map iteration order is not modelled as randomness. The caller supplies it as the key sequence `ks`, which must list every option key exactly once.
- `resourceFormatRegex` is replaced by membership in the set of the six strings its anchored alternation matches.
- The text of the error messages built with `fmt.Errorf` is not modelled. Errors are kinds: UnsupportedType, InvalidFormat, InvalidDuration, InvalidRevoke, InvalidRenewal, TemplateMissing, PkiNeedsCN and TplNeedsPath.
- GoParse.ParseDuration: accepts only integer segments. Go scales fractional segments such as "1.5h" with floating point; the model refuses them. The model's grammar is an optional sign, then "0" or one or more integer-and-unit segments. Its units are ns, us, µs (both micro signs), ms, s, m and h. A result is accepted when the signed total fits an int64. The model and Go agree on integer inputs whose running total stays within 2^63 ns. How Go's own adder behaves beyond that is not modelled: current releases add segments in a uint64 that can wrap around, and older releases added them in float64 with rounding.
- `update` is a `time.Duration` in Go. The model keeps it as an `int` count of nanoseconds, and every value ParseDuration returns lies within the int64 range.
- Retrieving, renewing and revoking leases in Vault, and rendering templates, happen outside this file and are not part of this model.
- `defaultVaultResource` returns a pointer to a new descriptor. It is modelled as the class constructor, so it is a fresh object, not a pure value.
- In the format case, Go matches `r.options["fmt"]` rather than `val`. These are the same string for that key. The model's loop reads `options[OptionFormat]` as the source does, and the specification uses `val`.
