/** The decision logic of the SAML 2.0 login backend: the required-entitlement check,
    the extra user details read off the assertion, the SAP SuccessFactors field and
    value mappings, the translation of an OData user record into registration fields,
    the configuration keys that backend needs, and the choice of identity-provider class. */
module Saml {
  import opened Wrappers
  import PyStr
  import opened KeySets

  /** The exceptions the rules can raise. */
  datatype SamlError =
    | AuthForbidden
    | IndexError
    | KeyError(key: string)
    | TypeError
    | ValueError
    | AttributeError

  /** The assertion's attributes: each attribute URN with its list of values. */
  type Attributes = map<string, seq<string>>

  /** User details: each detail name with its value or `None`. */
  type Details = map<string, Option<string>>

  /** An entry of `extra_field_definitions`. */
  datatype FieldDefinition = FieldDefinition(name: string, urn: string)

  /** A value-mapping object: a (nested) dictionary of strings, or a bare string. */
  datatype Mapping = Table(entries: map<string, Mapping>) | Scalar(s: string)

  /** An identity provider's `conf`: the plain string settings in `text`, each structured
      setting present or absent. */
  datatype ProviderConfig = ProviderConfig(
    text: map<string, string>,
    requiredEntitlements: Option<seq<string>>,
    extraFieldDefinitions: Option<seq<FieldDefinition>>,
    sapsfFieldMappings: Option<map<string, string>>,
    sapsfValueMappings: Option<map<string, Mapping>>,
    odataApiRequestTimeout: Option<int>)

  /** The URN of `eduPersonEntitlement`. */
  const EntitlementUrn: string := "urn:oid:1.3.6.1.4.1.5923.1.1.1.7"

  /** The assertion's eduPersonEntitlement values, none when the attribute is absent. */
  function Entitlements(attributes: Attributes): seq<string> {
    if EntitlementUrn in attributes then attributes[EntitlementUrn] else []
  }

  /** The first expected entitlement the user lacks, the one the rejection reports. */
  function FirstMissing(expected: seq<string>, entitlements: seq<string>): (r: Option<string>)
    ensures r.None? <==> forall e :: e in expected ==> e in entitlements
    ensures r.Some? ==>
              exists i :: 0 <= i < |expected| && expected[i] == r.value &&
                r.value !in entitlements && forall j :: 0 <= j < i ==> expected[j] in entitlements
  {
    if expected == [] then None
    else if expected[0] !in entitlements then Some(expected[0])
    else
      var r := FirstMissing(expected[1..], entitlements);
      assert forall e :: e in expected <==> e == expected[0] || e in expected[1..];
      assert forall i :: 0 <= i < |expected[1..]| ==> expected[1..][i] == expected[i + 1];
      r
  }

  /** `_check_entitlements`: with `requiredEntitlements` configured, the login is rejected
      exactly when one of them is missing from the user's entitlements; without it the
      login is never rejected. */
  function CheckEntitlements(conf: ProviderConfig, attributes: Attributes): (r: Result<(), SamlError>)
    ensures r.Failure? <==>
              conf.requiredEntitlements.Some? &&
              exists e :: e in conf.requiredEntitlements.value && e !in Entitlements(attributes)
    ensures r.Failure? ==> r.error == AuthForbidden
  {
    if conf.requiredEntitlements.None? then Success(())
    else if FirstMissing(conf.requiredEntitlements.value, Entitlements(attributes)).Some? then Failure(AuthForbidden)
    else Success(())
  }

  /** The value one extra field definition contributes: the first value of its attribute,
      `None` when the attribute is absent, `IndexError` when it has no value. */
  function FieldValue(field: FieldDefinition, attributes: Attributes): (r: Result<Option<string>, SamlError>)
    ensures r.Failure? <==> field.urn in attributes && |attributes[field.urn]| == 0
    ensures r.Failure? ==> r.error == IndexError
    ensures r.Success? && field.urn in attributes ==> r.value == Some(attributes[field.urn][0])
    ensures r.Success? && field.urn !in attributes ==> r.value == None
  {
    if field.urn !in attributes then Success(None)
    else if |attributes[field.urn]| == 0 then Failure(IndexError)
    else Success(Some(attributes[field.urn][0]))
  }

  /** The definitions' values written into `extra` one after another. */
  function AddFields(extra: Details, defs: seq<FieldDefinition>, attributes: Attributes): Result<Details, SamlError>
    decreases |defs|
  {
    if defs == [] then Success(extra)
    else
      var v :- FieldValue(defs[0], attributes);
      AddFields(extra[defs[0].name := v], defs[1..], attributes)
  }

  /** `EdXSAMLIdentityProvider.get_user_details`, given the details the base provider
      extracts. */
  function UserDetails(base: Details, conf: ProviderConfig, attributes: Attributes): (r: Result<Details, SamlError>)
    ensures r.Failure? ==> r.error == IndexError
    ensures r.Success? ==>
              r.value.Keys == base.Keys + set d | d in conf.extraFieldDefinitions.GetOr([]) :: d.name
  {
    var defs := conf.extraFieldDefinitions.GetOr([]);
    AddFieldsFailure(map[], defs, attributes);
    var extra :- AddFields(map[], defs, attributes);
    AddFieldsKeys(map[], defs, attributes);
    Success(base + extra)
  }

  /** Adding fields can only fail with the `IndexError` of an attribute without values. */
  lemma {:induction false} AddFieldsFailure(extra: Details, defs: seq<FieldDefinition>, attributes: Attributes)
    ensures AddFields(extra, defs, attributes).Failure? ==> AddFields(extra, defs, attributes).error == IndexError
    decreases |defs|
  {
    if defs != [] {
      var v := FieldValue(defs[0], attributes);
      if v.Success? {
        AddFieldsFailure(extra[defs[0].name := v.value], defs[1..], attributes);
      }
    }
  }

  lemma {:induction false} AddFieldsSucceeds(extra: Details, defs: seq<FieldDefinition>, attributes: Attributes)
    ensures AddFields(extra, defs, attributes).Success? <==>
              forall j :: 0 <= j < |defs| ==> FieldValue(defs[j], attributes).Success?
    decreases |defs|
  {
    if defs != [] {
      var v := FieldValue(defs[0], attributes);
      assert forall j :: 0 < j < |defs| ==> defs[j] == defs[1..][j - 1];
      if v.Success? {
        AddFieldsSucceeds(extra[defs[0].name := v.value], defs[1..], attributes);
      }
    }
  }

  lemma {:induction false} AddFieldsKeys(extra: Details, defs: seq<FieldDefinition>, attributes: Attributes)
    requires AddFields(extra, defs, attributes).Success?
    ensures AddFields(extra, defs, attributes).value.Keys == extra.Keys + set d | d in defs :: d.name
    decreases |defs|
  {
    if defs != [] {
      var v := FieldValue(defs[0], attributes);
      AddFieldsKeys(extra[defs[0].name := v.value], defs[1..], attributes);
      assert forall d :: d in defs <==> d == defs[0] || d in defs[1..];
    }
  }

  lemma {:induction false} AddFieldsUntouched(extra: Details, defs: seq<FieldDefinition>, attributes: Attributes, name: string)
    requires AddFields(extra, defs, attributes).Success?
    requires name in extra
    requires forall j :: 0 <= j < |defs| ==> defs[j].name != name
    ensures name in AddFields(extra, defs, attributes).value
    ensures AddFields(extra, defs, attributes).value[name] == extra[name]
    decreases |defs|
  {
    if defs != [] {
      var v := FieldValue(defs[0], attributes);
      assert forall j :: 0 <= j < |defs[1..]| ==> defs[1..][j] == defs[j + 1];
      AddFieldsUntouched(extra[defs[0].name := v.value], defs[1..], attributes, name);
    }
  }

  /** The definition that comes last among those with its name decides that name's value. */
  lemma {:induction false} AddFieldsLastWins(extra: Details, defs: seq<FieldDefinition>, attributes: Attributes, i: int)
    requires AddFields(extra, defs, attributes).Success?
    requires 0 <= i < |defs|
    requires forall j :: i < j < |defs| ==> defs[j].name != defs[i].name
    ensures FieldValue(defs[i], attributes).Success?
    ensures defs[i].name in AddFields(extra, defs, attributes).value
    ensures AddFields(extra, defs, attributes).value[defs[i].name] == FieldValue(defs[i], attributes).value
    decreases |defs|
  {
    AddFieldsSucceeds(extra, defs, attributes);
    var v := FieldValue(defs[0], attributes);
    var rest := defs[1..];
    assert forall j :: 0 <= j < |rest| ==> rest[j] == defs[j + 1];
    if i == 0 {
      AddFieldsUntouched(extra[defs[0].name := v.value], rest, attributes, defs[0].name);
    } else {
      AddFieldsLastWins(extra[defs[0].name := v.value], rest, attributes, i - 1);
    }
  }

  /** Extra user details: the result fails only on a defined attribute without values;
      otherwise each defined name carries the value of the last definition with that name,
      and every other base detail is unchanged. */
  lemma UserDetailsSpec(base: Details, conf: ProviderConfig, attributes: Attributes)
    ensures var defs := conf.extraFieldDefinitions.GetOr([]);
            UserDetails(base, conf, attributes).Success? <==>
              forall j :: 0 <= j < |defs| ==> defs[j].urn in attributes ==> |attributes[defs[j].urn]| > 0
    ensures var defs := conf.extraFieldDefinitions.GetOr([]);
            var r := UserDetails(base, conf, attributes);
            r.Success? ==>
              r.value.Keys == base.Keys + (set d | d in defs :: d.name) &&
              (forall k :: k in base && (forall j :: 0 <= j < |defs| ==> defs[j].name != k) ==> r.value[k] == base[k]) &&
              (forall i :: 0 <= i < |defs| && (forall j :: i < j < |defs| ==> defs[j].name != defs[i].name) ==>
                 r.value[defs[i].name] ==
                   (if defs[i].urn in attributes then Some(attributes[defs[i].urn][0]) else None))
  {
    var defs := conf.extraFieldDefinitions.GetOr([]);
    AddFieldsSucceeds(map[], defs, attributes);
    var r := UserDetails(base, conf, attributes);
    if r.Success? {
      var extra := AddFields(map[], defs, attributes).value;
      AddFieldsKeys(map[], defs, attributes);
      forall k | k in base && (forall j :: 0 <= j < |defs| ==> defs[j].name != k)
        ensures r.value[k] == base[k]
      {
        assert k !in extra;
      }
      forall i | 0 <= i < |defs| && (forall j :: i < j < |defs| ==> defs[j].name != defs[i].name)
        ensures r.value[defs[i].name] ==
                  (if defs[i].urn in attributes then Some(attributes[defs[i].urn][0]) else None)
      {
        AddFieldsLastWins(map[], defs, attributes, i);
      }
    }
  }

  /** `get_user_details` of the standard provider: reads each extra definition in turn
      and then updates the base details with the collected values. */
  method GetUserDetails(base: Details, conf: ProviderConfig, attributes: Attributes)
    returns (r: Result<Details, SamlError>)
    ensures r == UserDetails(base, conf, attributes)
  {
    var defs := conf.extraFieldDefinitions.GetOr([]);
    var extra: Details := map[];
    for i := 0 to |defs|
      invariant AddFields(map[], defs, attributes) == AddFields(extra, defs[i..], attributes)
    {
      var field := defs[i];
      assert defs[i..][0] == field && defs[i..][1..] == defs[i + 1..];
      var value: Option<string>;
      if field.urn in attributes {
        if |attributes[field.urn]| == 0 {
          return Failure(IndexError);
        }
        value := Some(attributes[field.urn][0]);
      } else {
        value := None;
      }
      extra := extra[field.name := value];
    }
    r := Success(base + extra);
  }

  /** The settings the OData client needs, in the order they are reported missing. */
  const RequiredVariables: seq<string> := [
    "sapsf_oauth_root_url", "sapsf_private_key", "odata_api_root_url",
    "odata_company_id", "odata_client_id"]

  /** `default_field_mapping`: SAP SuccessFactors field name to registration field name. */
  const DefaultFieldMapping: map<string, string> := map[
    "username" := "username", "firstName" := "first_name", "lastName" := "last_name",
    "defaultFullName" := "fullname", "email" := "email", "country" := "country", "city" := "city"]

  /** `default_value_mapping`, given the country table (country name to code). The
      `United States` entry sits at the top level, beside `country`, not inside it. */
  function DefaultValueMapping(countryCodes: map<string, string>): (r: map<string, Mapping>)
    ensures r.Keys == {"country", "United States"}
    ensures r["country"].Table? && r["country"].entries.Keys == countryCodes.Keys
    ensures forall name :: name in countryCodes ==> r["country"].entries[name] == Scalar(countryCodes[name])
    ensures r["United States"] == Scalar("US")
  {
    map["country" := Table(map name | name in countryCodes :: Scalar(countryCodes[name])),
        "United States" := Scalar("US")]
  }

  /** `field_mappings`: the default mapping updated with the configured overrides. */
  function FieldMappings(conf: ProviderConfig): (r: map<string, string>)
    ensures r.Keys == DefaultFieldMapping.Keys + conf.sapsfFieldMappings.GetOr(map[]).Keys
    ensures forall k :: k in conf.sapsfFieldMappings.GetOr(map[]) ==> r[k] == conf.sapsfFieldMappings.value[k]
    ensures forall k :: k in DefaultFieldMapping && k !in conf.sapsfFieldMappings.GetOr(map[]) ==>
              r[k] == DefaultFieldMapping[k]
  {
    DefaultFieldMapping + conf.sapsfFieldMappings.GetOr(map[])
  }

  /** What `value_mappings` stores for one overridden field: a default table updated with
      the override's entries, or, for a field without a default, the override's own entry
      for that field name. Updating a bare string raises `AttributeError`; updating a table
      with a non-empty string raises `ValueError`; indexing a string by a name raises
      `TypeError`. */
  function MergedEntry(defaults: map<string, Mapping>, field: string, override: Mapping): (r: Result<Mapping, SamlError>)
    ensures field in defaults && defaults[field].Table? && override.Table? ==>
              r.Success? && r.value.Table? &&
              r.value.entries.Keys == defaults[field].entries.Keys + override.entries.Keys &&
              (forall k :: k in override.entries ==> r.value.entries[k] == override.entries[k]) &&
              (forall k :: k in defaults[field].entries && k !in override.entries ==>
                 r.value.entries[k] == defaults[field].entries[k])
    ensures field !in defaults && override.Table? ==>
              (r.Success? <==> field in override.entries) &&
              (r.Success? ==> r.value == override.entries[field]) &&
              (r.Failure? ==> r.error == KeyError(field))
    ensures field in defaults && defaults[field].Table? && override.Scalar? ==>
              r == if override.s == "" then Success(defaults[field]) else Failure(ValueError)
    ensures field in defaults && defaults[field].Scalar? ==> r == Failure(AttributeError)
    ensures field !in defaults && override.Scalar? ==> r == Failure(TypeError)
  {
    if field in defaults then
      match defaults[field]
      case Scalar(_) => Failure(AttributeError)
      case Table(entries) =>
        match override
        case Table(o) => Success(Table(entries + o))
        case Scalar(s) => if s == "" then Success(defaults[field]) else Failure(ValueError)
    else
      match override
      case Table(o) => if field in o then Success(o[field]) else Failure(KeyError(field))
      case Scalar(_) => Failure(TypeError)
  }

  /** The outcome `value_mappings` gives each field: merged for an overridden field, the
      default for any other. */
  function MergedFields(defaults: map<string, Mapping>, overrides: map<string, Mapping>)
    : (r: map<string, Result<Mapping, SamlError>>)
    ensures r.Keys == defaults.Keys + overrides.Keys
  {
    map f | f in defaults.Keys + overrides.Keys ::
      if f in overrides then MergedEntry(defaults, f, overrides[f]) else Success(defaults[f])
  }

  predicate MergesCleanly(defaults: map<string, Mapping>, overrides: map<string, Mapping>) {
    forall f :: f in overrides ==> MergedEntry(defaults, f, overrides[f]).Success?
  }

  /** A field without an override keeps its default unchanged. */
  lemma DefaultKept(defaults: map<string, Mapping>, overrides: map<string, Mapping>, f: string)
    requires f in defaults && f !in overrides
    ensures MergedFields(defaults, overrides)[f] == Success(defaults[f])
  {
  }

  /** For a field without a default, the value stored is the override's entry named after
      the field itself, not the override. */
  lemma NewFieldTakesNestedEntry()
    ensures var overrides := map["gender" := Table(map["m" := Scalar("male")])];
            MergedFields(map[], overrides)["gender"] == Failure(KeyError("gender"))
    ensures var overrides := map["gender" := Table(map["gender" := Scalar("x"), "m" := Scalar("male")])];
            MergedFields(map[], overrides)["gender"] == Success(Scalar("x"))
  {
  }

  /** Merging into the working copy of the defaults is merging into the defaults, as long
      as the field has not been touched yet. */
  lemma MergeFromCopy(base: map<string, Mapping>, defaults: map<string, Mapping>, field: string, override: Mapping)
    requires field in base <==> field in defaults
    requires field in base ==> base[field] == defaults[field]
    ensures MergedEntry(base, field, override) == MergedEntry(defaults, field, override)
  {
  }

  /** After merging the overrides of `done` into a copy of the defaults: those fields hold
      their merged values, every other default is untouched. */
  ghost predicate MergedSoFar(
    base: map<string, Mapping>, defaults: map<string, Mapping>, overrides: map<string, Mapping>, done: set<string>)
  {
    && done <= overrides.Keys
    && base.Keys == defaults.Keys + done
    && (forall f :: f in done ==> MergedEntry(defaults, f, overrides[f]) == Success(base[f]))
    && (forall f :: f in base && f !in done ==> base[f] == defaults[f])
  }

  lemma MergeStep(
    base: map<string, Mapping>, defaults: map<string, Mapping>, overrides: map<string, Mapping>,
    done: set<string>, field: string)
    requires MergedSoFar(base, defaults, overrides, done)
    requires field in overrides && field !in done
    requires MergedEntry(defaults, field, overrides[field]).Success?
    ensures MergedEntry(base, field, overrides[field]) == MergedEntry(defaults, field, overrides[field])
    ensures MergedSoFar(base[field := MergedEntry(defaults, field, overrides[field]).value],
                        defaults, overrides, done + {field})
  {
    MergeFromCopy(base, defaults, field, overrides[field]);
  }

  lemma MergedAll(base: map<string, Mapping>, defaults: map<string, Mapping>, overrides: map<string, Mapping>)
    requires MergedSoFar(base, defaults, overrides, overrides.Keys)
    ensures MergesCleanly(defaults, overrides)
    ensures base.Keys == defaults.Keys + overrides.Keys
    ensures forall f :: f in base ==> MergedFields(defaults, overrides)[f] == Success(base[f])
  {
  }

  /** `value_mappings`: a copy of the defaults, each overridden field merged in turn. The
      result does not depend on the order the overrides are visited in. */
  method ValueMappings(defaults: map<string, Mapping>, overrides: map<string, Mapping>)
    returns (r: Result<map<string, Mapping>, SamlError>)
    ensures r.Success? <==> MergesCleanly(defaults, overrides)
    ensures r.Failure? ==> exists f :: f in overrides && MergedEntry(defaults, f, overrides[f]) == Failure(r.error)
    ensures r.Success? ==>
              r.value.Keys == defaults.Keys + overrides.Keys &&
              forall f :: f in r.value ==> MergedFields(defaults, overrides)[f] == Success(r.value[f])
  {
    var base := defaults;
    var todo := overrides.Keys;
    ghost var done: set<string> := {};
    while todo != {}
      invariant todo == overrides.Keys - done && done <= overrides.Keys
      invariant MergedSoFar(base, defaults, overrides, done)
      decreases |todo|
    {
      var field :| field in todo;
      MergeFromCopy(base, defaults, field, overrides[field]);
      var merged := MergedEntry(base, field, overrides[field]);
      if merged.Failure? {
        return Failure(merged.error);
      }
      MergeStep(base, defaults, overrides, done, field);
      MoveToDone(todo, done, overrides.Keys, field);
      base := base[field := merged.value];
      done := done + {field};
      todo := todo - {field};
    }
    AllDone(todo, done, overrides.Keys);
    MergedAll(base, defaults, overrides);
    r := Success(base);
  }

  /** The OData user record's value for a field, the empty string when the record lacks it. */
  function Lookup(record: map<string, string>, odataName: string): string {
    if odataName in record then record[odataName] else ""
  }

  /** `value in value_mapping[field]` for a field that has a value mapping: key
      membership for a table, substring membership for a bare string. */
  predicate HasTranslation(valueMapping: map<string, Mapping>, field: string, value: string) {
    field in valueMapping &&
    match valueMapping[field]
    case Table(entries) => value in entries
    case Scalar(s) => PyStr.Contains(s, value)
  }

  /** The value a registration field ends with: its translation when its field's mapping
      contains it, else the value unchanged. Indexing a bare string by the value raises
      `TypeError`. */
  function Translate(valueMapping: map<string, Mapping>, field: string, value: string): (r: Result<Mapping, SamlError>)
    ensures !HasTranslation(valueMapping, field, value) ==> r == Success(Scalar(value))
    ensures HasTranslation(valueMapping, field, value) && valueMapping[field].Table? ==>
              r == Success(valueMapping[field].entries[value])
    ensures HasTranslation(valueMapping, field, value) && valueMapping[field].Scalar? ==> r == Failure(TypeError)
  {
    if !HasTranslation(valueMapping, field, value) then Success(Scalar(value))
    else match valueMapping[field]
      case Table(entries) => Success(entries[value])
      case Scalar(_) => Failure(TypeError)
  }

  /** The registration fields before translation: one per registration name in the field
      mapping, holding the record's value for one of the SAP fields mapped to it. */
  method CollectFields(fieldMapping: map<string, string>, record: map<string, string>)
    returns (fields: map<string, string>)
    ensures fields.Keys == fieldMapping.Values
    ensures forall name :: name in fields ==>
              exists odata :: odata in fieldMapping && fieldMapping[odata] == name && fields[name] == Lookup(record, odata)
  {
    fields := map[];
    var todo := fieldMapping.Keys;
    while todo != {}
      invariant todo <= fieldMapping.Keys
      invariant forall odata :: odata in fieldMapping && odata !in todo ==> fieldMapping[odata] in fields
      invariant forall name :: name in fields ==>
                  exists odata :: odata in fieldMapping && odata !in todo && fieldMapping[odata] == name &&
                    fields[name] == Lookup(record, odata)
      decreases |todo|
    {
      var odata :| odata in todo;
      fields := fields[fieldMapping[odata] := Lookup(record, odata)];
      todo := todo - {odata};
    }
  }

  /** Rewrites every registration field whose value has a translation, in place. */
  method TranslateFields(fields: map<string, string>, valueMapping: map<string, Mapping>)
    returns (r: Result<map<string, Mapping>, SamlError>)
    ensures r.Success? <==> forall name :: name in fields ==> Translate(valueMapping, name, fields[name]).Success?
    ensures r.Failure? ==> r.error == TypeError
    ensures r.Success? ==>
              r.value.Keys == fields.Keys &&
              forall name :: name in r.value ==> Translate(valueMapping, name, fields[name]) == Success(r.value[name])
  {
    var registration: map<string, Mapping> := map name | name in fields :: Scalar(fields[name]);
    var todo := fields.Keys;
    while todo != {}
      invariant todo <= fields.Keys
      invariant registration.Keys == fields.Keys
      invariant forall name :: name in todo ==> registration[name] == Scalar(fields[name])
      invariant forall name :: name in fields && name !in todo ==>
                  Translate(valueMapping, name, fields[name]) == Success(registration[name])
      decreases |todo|
    {
      var name :| name in todo;
      var value := fields[name];
      if HasTranslation(valueMapping, name, value) {
        match valueMapping[name]
        case Table(entries) =>
          registration := registration[name := entries[value]];
        case Scalar(_) =>
          return Failure(TypeError);
      }
      todo := todo - {name};
    }
    r := Success(registration);
  }

  /** What `get_registration_fields` may return for a response: `KeyError` without a user
      record, the error of a failing override when the value mappings do not merge, and
      otherwise one translated value per registration name. The result is certain to be
      a success when every mapped SAP value translates, and the only other outcome is
      `TypeError`. */
  ghost predicate RegistrationOutcome(
    conf: ProviderConfig, countryCodes: map<string, string>, response: map<string, map<string, string>>,
    r: Result<map<string, Mapping>, SamlError>)
  {
    var defaults, overrides := DefaultValueMapping(countryCodes), conf.sapsfValueMappings.GetOr(map[]);
    var fieldMapping := FieldMappings(conf);
    && ("d" !in response ==> r == Failure(KeyError("d")))
    && ("d" in response && !MergesCleanly(defaults, overrides) ==>
          r.Failure? && exists f :: f in overrides && MergedEntry(defaults, f, overrides[f]) == Failure(r.error))
    && ("d" in response && MergesCleanly(defaults, overrides) ==>
          var valueMapping := ValueMappingFrom(defaults, overrides);
          && (r.Failure? ==> r.error == TypeError)
          && ((forall odata :: odata in fieldMapping ==>
                 Translate(valueMapping, fieldMapping[odata], Lookup(response["d"], odata)).Success?) ==>
                r.Success?)
          && (r.Success? ==>
                && r.value.Keys == fieldMapping.Values
                && forall name :: name in r.value ==>
                     exists odata :: odata in fieldMapping && fieldMapping[odata] == name &&
                       Success(r.value[name]) == Translate(valueMapping, name, Lookup(response["d"], odata))))
  }

  /** `get_registration_fields`, given the mappings and the country table: `KeyError`
      without a user record, then the errors of `value_mappings`, then the translation. */
  method GetRegistrationFields(
    conf: ProviderConfig, countryCodes: map<string, string>, response: map<string, map<string, string>>)
    returns (r: Result<map<string, Mapping>, SamlError>)
    ensures RegistrationOutcome(conf, countryCodes, response, r)
  {
    var fieldMapping := FieldMappings(conf);
    if "d" !in response {
      return Failure(KeyError("d"));
    }
    var fields := CollectFields(fieldMapping, response["d"]);
    var defaults, overrides := DefaultValueMapping(countryCodes), conf.sapsfValueMappings.GetOr(map[]);
    var valueMapping := ValueMappings(defaults, overrides);
    if valueMapping.Failure? {
      return Failure(valueMapping.error);
    }
    ValueMappingFromResult(defaults, overrides, valueMapping.value);
    r := TranslateFields(fields, valueMapping.value);
  }

  /** The value mappings when every override merges. */
  function ValueMappingFrom(defaults: map<string, Mapping>, overrides: map<string, Mapping>): (r: map<string, Mapping>)
    requires MergesCleanly(defaults, overrides)
    ensures r.Keys == defaults.Keys + overrides.Keys
    ensures forall f :: f in r ==> MergedFields(defaults, overrides)[f] == Success(r[f])
  {
    map f | f in defaults.Keys + overrides.Keys :: MergedFields(defaults, overrides)[f].value
  }

  lemma ValueMappingFromResult(defaults: map<string, Mapping>, overrides: map<string, Mapping>, m: map<string, Mapping>)
    requires MergesCleanly(defaults, overrides)
    requires m.Keys == defaults.Keys + overrides.Keys
    requires forall f :: f in m ==> MergedFields(defaults, overrides)[f] == Success(m[f])
    ensures m == ValueMappingFrom(defaults, overrides)
  {
  }

  /** `United States` is a value-mapping field of its own, so a `country` of
      `United States` is translated only through the country table, and a registration
      field named `United States` with any substring of `US` as its value (the empty
      default included) raises `TypeError`. */
  lemma UnitedStatesIsTopLevel(countryCodes: map<string, string>)
    ensures "United States" !in countryCodes ==>
              Translate(DefaultValueMapping(countryCodes), "country", "United States") == Success(Scalar("United States"))
    ensures Translate(DefaultValueMapping(countryCodes), "United States", "") == Failure(TypeError)
  {
    assert PyStr.Contains("US", "");
  }

  /** A subsequence of `b`: the elements of `a` occur in `b` in the same order. */
  predicate IsSubsequence(a: seq<string>, b: seq<string>) {
    a == [] || (|b| > 0 && ((a[0] == b[0] && IsSubsequence(a[1..], b[1..])) || IsSubsequence(a, b[1..])))
  }

  /** The variables not configured, in their declared order. */
  function MissingFrom(vars: seq<string>, present: map<string, string>): (r: seq<string>)
    ensures forall v :: v in r <==> v in vars && v !in present
    ensures IsSubsequence(r, vars)
  {
    if vars == [] then []
    else
      var rest := MissingFrom(vars[1..], present);
      assert forall v :: v in vars <==> v == vars[0] || v in vars[1..];
      if vars[0] in present then rest else [vars[0]] + rest
  }

  /** `missing_variables`: the required settings absent from the configuration, in
      declaration order, or `None` when all are present. */
  function MissingVariables(conf: ProviderConfig): (r: Option<seq<string>>)
    ensures r.None? <==> forall v :: v in RequiredVariables ==> v in conf.text
    ensures r.Some? ==>
              |r.value| > 0 && IsSubsequence(r.value, RequiredVariables) &&
              forall v :: v in r.value <==> v in RequiredVariables && v !in conf.text
  {
    if forall v :: v in RequiredVariables ==> v in conf.text then None
    else
      var missing := MissingFrom(RequiredVariables, conf.text);
      assert exists v :: v in RequiredVariables && v !in conf.text;
      Some(missing)
  }

  /** A configured string setting, `KeyError` when it is absent. */
  function Setting(conf: ProviderConfig, key: string): (r: Result<string, SamlError>)
    ensures r.Success? <==> key in conf.text
    ensures r.Success? ==> r.value == conf.text[key]
    ensures r.Failure? ==> r.error == KeyError(key)
  {
    if key in conf.text then Success(conf.text[key]) else Failure(KeyError(key))
  }

  /** `timeout`: the configured OData request timeout, 10 seconds by default. */
  function Timeout(conf: ProviderConfig): (r: int)
    ensures conf.odataApiRequestTimeout.None? ==> r == 10
    ensures conf.odataApiRequestTimeout.Some? ==> r == conf.odataApiRequestTimeout.value
  {
    conf.odataApiRequestTimeout.GetOr(10)
  }

  function SapsfIdpUrl(conf: ProviderConfig): (r: Result<string, SamlError>)
    ensures r.Success? <==> "sapsf_oauth_root_url" in conf.text
    ensures r.Success? ==> r.value == conf.text["sapsf_oauth_root_url"] + "idp"
    ensures r.Failure? ==> r.error == KeyError("sapsf_oauth_root_url")
  {
    var root :- Setting(conf, "sapsf_oauth_root_url");
    Success(root + "idp")
  }

  function SapsfTokenUrl(conf: ProviderConfig): (r: Result<string, SamlError>)
    ensures r.Success? <==> "sapsf_oauth_root_url" in conf.text
    ensures r.Success? ==> r.value == conf.text["sapsf_oauth_root_url"] + "token"
    ensures r.Failure? ==> r.error == KeyError("sapsf_oauth_root_url")
  {
    var root :- Setting(conf, "sapsf_oauth_root_url");
    Success(root + "token")
  }

  function SapsfPrivateKey(conf: ProviderConfig): (r: Result<string, SamlError>)
    ensures r.Success? <==> "sapsf_private_key" in conf.text
    ensures r.Success? ==> r.value == conf.text["sapsf_private_key"]
    ensures r.Failure? ==> r.error == KeyError("sapsf_private_key")
  {
    Setting(conf, "sapsf_private_key")
  }

  function OdataApiRootUrl(conf: ProviderConfig): (r: Result<string, SamlError>)
    ensures r.Success? <==> "odata_api_root_url" in conf.text
    ensures r.Success? ==> r.value == conf.text["odata_api_root_url"]
    ensures r.Failure? ==> r.error == KeyError("odata_api_root_url")
  {
    Setting(conf, "odata_api_root_url")
  }

  function OdataCompanyId(conf: ProviderConfig): (r: Result<string, SamlError>)
    ensures r.Success? <==> "odata_company_id" in conf.text
    ensures r.Success? ==> r.value == conf.text["odata_company_id"]
    ensures r.Failure? ==> r.error == KeyError("odata_company_id")
  {
    Setting(conf, "odata_company_id")
  }

  function OdataClientId(conf: ProviderConfig): (r: Result<string, SamlError>)
    ensures r.Success? <==> "odata_client_id" in conf.text
    ensures r.Success? ==> r.value == conf.text["odata_client_id"]
    ensures r.Failure? ==> r.error == KeyError("odata_client_id")
  {
    Setting(conf, "odata_client_id")
  }

  /** The two OAuth URLs exist together and share the configured root. */
  lemma SapsfUrlsShareRoot(conf: ProviderConfig)
    ensures SapsfIdpUrl(conf).Success? <==> SapsfTokenUrl(conf).Success?
    ensures SapsfIdpUrl(conf).Success? ==>
              var root := conf.text["sapsf_oauth_root_url"];
              SapsfIdpUrl(conf).value == root + "idp" && SapsfTokenUrl(conf).value == root + "token"
  {
  }

  /** When no required setting is missing, every accessor the OData client uses succeeds;
      when one is missing, its accessor raises `KeyError` for it. */
  lemma AccessorsGuardedByMissingVariables(conf: ProviderConfig)
    ensures MissingVariables(conf).None? <==>
              SapsfIdpUrl(conf).Success? && SapsfTokenUrl(conf).Success? && SapsfPrivateKey(conf).Success? &&
              OdataApiRootUrl(conf).Success? && OdataCompanyId(conf).Success? && OdataClientId(conf).Success?
  {
    assert forall v :: v in RequiredVariables <==>
      v == "sapsf_oauth_root_url" || v == "sapsf_private_key" || v == "odata_api_root_url" ||
      v == "odata_company_id" || v == "odata_client_id";
  }

  /** What the SAP SuccessFactors provider returns: the assertion's details, or the
      registration fields built from the OData user record. */
  datatype SapDetails = AssertionDetails(details: Details) | RegistrationFields(fields: map<string, Mapping>)

  /** `SapSuccessFactorsIdentityProvider.get_user_details`. `odata` stands for the user
      record the OData API returns, `None` when the request fails. */
  method SapGetUserDetails(
    base: Details, conf: ProviderConfig, attributes: Attributes, countryCodes: map<string, string>,
    odata: Option<map<string, map<string, string>>>)
    returns (r: Result<SapDetails, SamlError>)
    ensures UserDetails(base, conf, attributes).Failure? ==> r == Failure(UserDetails(base, conf, attributes).error)
    ensures UserDetails(base, conf, attributes).Success? && MissingVariables(conf).Some? ==>
              r == Success(AssertionDetails(UserDetails(base, conf, attributes).value))
    ensures UserDetails(base, conf, attributes).Success? && MissingVariables(conf).None? ==>
              var details := UserDetails(base, conf, attributes).value;
              ("username" !in details ==> r == Failure(KeyError("username"))) &&
              ("username" in details && odata.None? ==> r == Success(AssertionDetails(details))) &&
              ("username" in details && odata.Some? ==>
                 exists fields :: RegistrationOutcome(conf, countryCodes, odata.value, fields) &&
                   r == if fields.Success? then Success(RegistrationFields(fields.value)) else Failure(fields.error))
  {
    var details := GetUserDetails(base, conf, attributes);
    if details.Failure? {
      return Failure(details.error);
    }
    if MissingVariables(conf).Some? {
      return Success(AssertionDetails(details.value));
    }
    if "username" !in details.value {
      return Failure(KeyError("username"));
    }
    if odata.None? {
      return Success(AssertionDetails(details.value));
    }
    var fields := GetRegistrationFields(conf, countryCodes, odata.value);
    if fields.Failure? {
      return Failure(fields.error);
    }
    r := Success(RegistrationFields(fields.value));
  }

  /** The identity-provider classes a configuration can choose. */
  datatype IdpClass = EdXSAMLIdentityProvider | SapSuccessFactorsIdentityProvider

  const StandardSamlProviderKey: string := "standard_saml_provider"
  const SapSuccessFactorsSamlKey: string := "sap_success_factors"

  /** The identity-provider kinds a configuration can choose, with their labels. */
  const IdpChoices: seq<(string, string)> := [
    (StandardSamlProviderKey, "Standard SAML provider"),
    (SapSuccessFactorsSamlKey, "SAP SuccessFactors provider")]

  /** `get_saml_idp_class`: the SAP key selects the SAP provider; every other string,
      known or not, the standard one. */
  function GetSamlIdpClass(identifier: string): (r: IdpClass)
    ensures r == SapSuccessFactorsIdentityProvider <==> identifier == SapSuccessFactorsSamlKey
    ensures r == EdXSAMLIdentityProvider <==> identifier != SapSuccessFactorsSamlKey
  {
    var choices := map[StandardSamlProviderKey := EdXSAMLIdentityProvider,
                       SapSuccessFactorsSamlKey := SapSuccessFactorsIdentityProvider];
    if identifier in choices then choices[identifier] else EdXSAMLIdentityProvider
  }

  /** The choices offered are distinct keys, and they name distinct classes. */
  lemma IdpChoicesDistinct()
    ensures |IdpChoices| == 2 && IdpChoices[0].0 != IdpChoices[1].0
    ensures GetSamlIdpClass(IdpChoices[0].0) != GetSamlIdpClass(IdpChoices[1].0)
  {
  }
}
