/**
 A blueprint specification: its payload components take what they leave open
 from shared definitions, in place, and its formats are found by their ID
 (MIOTY application layer, sections 2.2.7.2 and 2.2.9).
 */
module Blueprint {
  import opened Bytes
  import opened Wrappers

  datatype ComponentDef = ComponentDef(size: int, kind: string, unit: string, hidden: bool, func: string)

  /** The fields resolution never touches. */
  datatype Presentation = Presentation(offset: Option<int>, scale: real, bias: real, condition: string,
                                       calibration: string, displayLabel: string, description: string)

  datatype PayloadComponent = PayloadComponent(name: string, component: string, size: int, kind: string, unit: string,
                                               hidden: bool, func: string, presentation: Presentation)

  datatype PayloadFormat = PayloadFormat(formatId: Byte, name: string, components: seq<PayloadComponent>)

  /** A specification as its JSON unmarshals. */
  datatype SpecJson = SpecJson(version: string, typeEui: string, component: map<string, ComponentDef>,
                               uplink: seq<PayloadFormat>, downlink: seq<PayloadFormat>)

  datatype Fault =
    | InvalidBlueprintJson
    | ComponentRefNotFound(name: string, key: string)
    | MissingVersion | MissingTypeEui | MissingUplinkDefs
    | DuplicateUplinkFormatId(id: Byte)
    | DuplicateDownlinkFormatId

  type Defs = map<string, ComponentDef>

  // ----- references -----

  predicate Defined(defs: Defs, c: PayloadComponent) {
    c.component == "" || c.component in defs
  }

  predicate ComponentsDefined(defs: Defs, components: seq<PayloadComponent>) {
    forall i | 0 <= i < |components| :: Defined(defs, components[i])
  }

  /** Every reference of the formats has its definition. */
  predicate FormatsDefined(defs: Defs, formats: seq<PayloadFormat>) {
    forall i | 0 <= i < |formats| :: ComponentsDefined(defs, formats[i].components)
  }

  /** A component's own values, over those of the definition it references. */
  function Overridden(c: PayloadComponent, def: ComponentDef): PayloadComponent {
    c.(size := if c.size == 0 then def.size else c.size,
       kind := if c.kind == "" then def.kind else c.kind,
       unit := if c.unit == "" then def.unit else c.unit,
       func := if c.func == "" then def.func else c.func,
       hidden := if !c.hidden then def.hidden else c.hidden)
  }

  function Merged(defs: Defs, c: PayloadComponent): PayloadComponent {
    if c.component == "" || c.component !in defs then c else Overridden(c, defs[c.component])
  }

  function MergedComponents(defs: Defs, components: seq<PayloadComponent>): seq<PayloadComponent> {
    seq(|components|, i requires 0 <= i < |components| => Merged(defs, components[i]))
  }

  function MergedFormat(defs: Defs, f: PayloadFormat): PayloadFormat {
    f.(components := MergedComponents(defs, f.components))
  }

  function MergedFormats(defs: Defs, formats: seq<PayloadFormat>): seq<PayloadFormat> {
    seq(|formats|, i requires 0 <= i < |formats| => MergedFormat(defs, formats[i]))
  }

  /** Component ci of the format is its first without a definition: what precedes it is merged, the rest is as it was. */
  predicate StopsInFormat(defs: Defs, f: PayloadFormat, left: PayloadFormat, fault: Fault, ci: nat) {
    && ci < |f.components|
    && (forall j | 0 <= j < ci :: Defined(defs, f.components[j])) && !Defined(defs, f.components[ci])
    && fault == ComponentRefNotFound(f.components[ci].name, f.components[ci].component)
    && left == f.(components := left.components) && |left.components| == |f.components|
    && (forall j | 0 <= j < ci :: left.components[j] == Merged(defs, f.components[j]))
    && (forall j | ci <= j < |f.components| :: left.components[j] == f.components[j])
  }

  /** Format fi is the first with an undefined reference, at its component ci. */
  predicate StopsAt(defs: Defs, formats: seq<PayloadFormat>, left: seq<PayloadFormat>, fault: Fault, fi: nat, ci: nat) {
    && fi < |formats| == |left|
    && (forall i | 0 <= i < fi :: ComponentsDefined(defs, formats[i].components) && left[i] == MergedFormat(defs, formats[i]))
    && (forall i | fi < i < |formats| :: left[i] == formats[i])
    && StopsInFormat(defs, formats[fi], left[fi], fault, ci)
  }

  /** Merges the components of one format, up to the first undefined reference. */
  method ResolveFormat(defs: Defs, f: PayloadFormat) returns (left: PayloadFormat, fault: Option<Fault>)
    ensures fault.None? <==> ComponentsDefined(defs, f.components)
    ensures fault.None? ==> left == MergedFormat(defs, f)
    ensures fault.Some? ==> exists ci: nat :: StopsInFormat(defs, f, left, fault.value, ci)
  {
    var components := f.components;
    for ci := 0 to |components|
      invariant |components| == |f.components|
      invariant forall j | 0 <= j < ci :: Defined(defs, f.components[j]) && components[j] == Merged(defs, f.components[j])
      invariant forall j | ci <= j < |components| :: components[j] == f.components[j]
    {
      var component := components[ci];
      if component.component != "" {
        if component.component !in defs {
          left := f.(components := components);
          fault := Some(ComponentRefNotFound(component.name, component.component));
          assert StopsInFormat(defs, f, left, fault.value, ci);
          return;
        }
        var def := defs[component.component];
        if component.size == 0 {
          component := component.(size := def.size);
        }
        if component.kind == "" {
          component := component.(kind := def.kind);
        }
        if component.unit == "" {
          component := component.(unit := def.unit);
        }
        if component.func == "" {
          component := component.(func := def.func);
        }
        if !component.hidden {
          component := component.(hidden := def.hidden);
        }
        components := components[ci := component];
      }
    }
    assert components == MergedComponents(defs, f.components);
    return f.(components := components), None;
  }

  /** Merges one list of formats, up to the first undefined reference. */
  method ResolveList(defs: Defs, formats: seq<PayloadFormat>) returns (left: seq<PayloadFormat>, fault: Option<Fault>)
    ensures fault.None? <==> FormatsDefined(defs, formats)
    ensures fault.None? ==> left == MergedFormats(defs, formats)
    ensures fault.Some? ==> exists fi: nat, ci: nat :: StopsAt(defs, formats, left, fault.value, fi, ci)
  {
    left := formats;
    for fi := 0 to |formats|
      invariant |left| == |formats|
      invariant forall i | 0 <= i < fi :: ComponentsDefined(defs, formats[i].components) && left[i] == MergedFormat(defs, formats[i])
      invariant forall i | fi <= i < |formats| :: left[i] == formats[i]
    {
      var resolved, stopped := ResolveFormat(defs, formats[fi]);
      left := left[fi := resolved];
      if stopped.Some? {
        var ci: nat :| StopsInFormat(defs, formats[fi], resolved, stopped.value, ci);
        assert StopsAt(defs, formats, left, stopped.value, fi, ci);
        return left, stopped;
      }
    }
    assert left == MergedFormats(defs, formats);
    return left, None;
  }

  // ----- format IDs -----

  predicate DistinctIds(formats: seq<PayloadFormat>) {
    forall i, j | 0 <= i < j < |formats| :: formats[i].formatId != formats[j].formatId
  }

  /** Format k is the first whose ID an earlier one has. */
  predicate RepeatsAt(formats: seq<PayloadFormat>, k: nat) {
    k < |formats| && DistinctIds(formats[..k]) && exists i | 0 <= i < k :: formats[i].formatId == formats[k].formatId
  }

  /** The first repeated ID of a list of formats. */
  method FindDuplicate(formats: seq<PayloadFormat>) returns (duplicate: Option<Byte>)
    ensures duplicate.None? <==> DistinctIds(formats)
    ensures duplicate.Some? ==> exists k: nat :: RepeatsAt(formats, k) && duplicate.value == formats[k].formatId
  {
    var seen: map<Byte, bool> := map[];
    for k := 0 to |formats|
      invariant DistinctIds(formats[..k])
      invariant forall id :: id in seen <==> exists i | 0 <= i < k :: formats[i].formatId == id
    {
      if formats[k].formatId in seen {
        assert RepeatsAt(formats, k);
        return Some(formats[k].formatId);
      }
      seen := seen[formats[k].formatId := true];
    }
    return None;
  }

  /** The first format with an ID. */
  function Lookup(formats: seq<PayloadFormat>, formatId: Byte): Option<PayloadFormat> {
    if formats == [] then None
    else if formats[0].formatId == formatId then Some(formats[0])
    else Lookup(formats[1..], formatId)
  }

  /** Where IDs are distinct a lookup finds the one format that has the ID, or none has it. */
  lemma {:induction false} LookupFindsTheOne(formats: seq<PayloadFormat>, formatId: Byte, f: PayloadFormat)
    requires DistinctIds(formats)
    ensures Lookup(formats, formatId) == Some(f) <==> f in formats && f.formatId == formatId
  {
    if formats == [] {
    } else {
      assert DistinctIds(formats[1..]) by {
        forall i, j | 0 <= i < j < |formats| - 1 ensures formats[1..][i].formatId != formats[1..][j].formatId {
          assert formats[i + 1].formatId != formats[j + 1].formatId;
        }
      }
      LookupFindsTheOne(formats[1..], formatId, f);
      assert formats == [formats[0]] + formats[1..];
    }
  }

  lemma {:induction false} LookupIsTheFirst(formats: seq<PayloadFormat>, formatId: Byte)
    ensures match Lookup(formats, formatId)
            case None => forall f <- formats :: f.formatId != formatId
            case Some(f) => exists i | 0 <= i < |formats| :: formats[i] == f && f.formatId == formatId
                                                             && forall j | 0 <= j < i :: formats[j].formatId != formatId
  {
    if formats == [] {
    } else if formats[0].formatId == formatId {
    } else {
      LookupIsTheFirst(formats[1..], formatId);
      if i :| 0 <= i < |formats[1..]| && Lookup(formats, formatId) == Some(formats[1..][i])
              && formats[1..][i].formatId == formatId && forall j | 0 <= j < i :: formats[1..][j].formatId != formatId {
        forall j | 0 <= j < i + 1 ensures formats[j].formatId != formatId {
          assert j == 0 || formats[j] == formats[1..][j - 1];
        }
        assert formats[i + 1] == formats[1..][i];
      }
    }
  }

  /** The format a linear scan finds. */
  method FindFormat(formats: seq<PayloadFormat>, formatId: Byte) returns (found: Option<PayloadFormat>)
    ensures found == Lookup(formats, formatId)
  {
    for i := 0 to |formats|
      invariant Lookup(formats, formatId) == Lookup(formats[i..], formatId)
    {
      assert formats[i..][0] == formats[i] && formats[i..][1..] == formats[i + 1..];
      if formats[i].formatId == formatId {
        return Some(formats[i]);
      }
    }
    return None;
  }

  /** What a parsed and validated specification promises. */
  predicate Valid(version: string, typeEui: string, uplink: seq<PayloadFormat>, downlink: seq<PayloadFormat>) {
    && version != "" && typeEui != "" && (uplink != [] || downlink != [])
    && DistinctIds(uplink) && DistinctIds(downlink)
  }

  class Spec {
    const version: string
    const typeEui: string
    const component: Defs
    var uplink: seq<PayloadFormat>
    var downlink: seq<PayloadFormat>

    constructor (json: SpecJson)
      ensures version == json.version && typeEui == json.typeEui && component == json.component
      ensures uplink == json.uplink && downlink == json.downlink
    {
      version, typeEui, component := json.version, json.typeEui, json.component;
      uplink, downlink := json.uplink, json.downlink;
    }

    /** Merges the definitions into the components that reference them; without definitions nothing is looked at. */
    method ResolveComponents() returns (fault: Option<Fault>)
      modifies this
      ensures fault.None? <==> component == map[] || (FormatsDefined(component, old(uplink)) && FormatsDefined(component, old(downlink)))
      ensures fault.None? && component != map[] ==>
                uplink == MergedFormats(component, old(uplink)) && downlink == MergedFormats(component, old(downlink))
      ensures component == map[] ==> uplink == old(uplink) && downlink == old(downlink)
      ensures fault.Some? && !FormatsDefined(component, old(uplink)) ==>
                downlink == old(downlink) && exists fi: nat, ci: nat :: StopsAt(component, old(uplink), uplink, fault.value, fi, ci)
      ensures fault.Some? && FormatsDefined(component, old(uplink)) ==>
                && uplink == MergedFormats(component, old(uplink))
                && exists fi: nat, ci: nat :: StopsAt(component, old(downlink), downlink, fault.value, fi, ci)
    {
      if component == map[] {
        return None;
      }
      uplink, fault := ResolveList(component, uplink);
      if fault.Some? {
        return;
      }
      downlink, fault := ResolveList(component, downlink);
    }

    /** The first of the checks that fails. */
    method Validate() returns (fault: Option<Fault>)
      ensures fault.None? <==> Valid(version, typeEui, uplink, downlink)
      ensures fault == Some(MissingVersion) <==> version == ""
      ensures fault == Some(MissingTypeEui) <==> version != "" && typeEui == ""
      ensures fault == Some(MissingUplinkDefs) <==> version != "" && typeEui != "" && uplink == [] && downlink == []
      ensures fault.Some? && fault.value.DuplicateUplinkFormatId? <==>
                version != "" && typeEui != "" && exists i, j | 0 <= i < j < |uplink| :: uplink[i].formatId == uplink[j].formatId
      ensures fault.Some? && fault.value.DuplicateUplinkFormatId? ==>
                exists k: nat :: RepeatsAt(uplink, k) && fault.value.id == uplink[k].formatId
      ensures fault == Some(DuplicateDownlinkFormatId) <==>
                version != "" && typeEui != "" && DistinctIds(uplink)
                && exists i, j | 0 <= i < j < |downlink| :: downlink[i].formatId == downlink[j].formatId
      ensures fault.Some? ==> !fault.value.InvalidBlueprintJson? && !fault.value.ComponentRefNotFound?
    {
      if version == "" {
        return Some(MissingVersion);
      }
      if typeEui == "" {
        return Some(MissingTypeEui);
      }
      if |uplink| == 0 && |downlink| == 0 {
        return Some(MissingUplinkDefs);
      }
      var duplicate := FindDuplicate(uplink);
      if duplicate.Some? {
        return Some(DuplicateUplinkFormatId(duplicate.value));
      }
      duplicate := FindDuplicate(downlink);
      if duplicate.Some? {
        return Some(DuplicateDownlinkFormatId);
      }
      return None;
    }

    method GetUplinkFormat(formatId: Byte) returns (found: Option<PayloadFormat>)
      ensures found == Lookup(uplink, formatId)
    {
      found := FindFormat(uplink, formatId);
    }

    method GetDownlinkFormat(formatId: Byte) returns (found: Option<PayloadFormat>)
      ensures found == Lookup(downlink, formatId)
    {
      found := FindFormat(downlink, formatId);
    }
  }

  /** Parses, resolves and validates; the specification returned has unique format IDs and no open reference. */
  method ParseAndValidate(json: Option<SpecJson>) returns (spec: Spec?, fault: Option<Fault>)
    ensures spec == null <==> fault.Some?
    ensures spec != null ==> fresh(spec) && json.Some? && Valid(spec.version, spec.typeEui, spec.uplink, spec.downlink)
    ensures spec != null && json.value.component != map[] ==>
              && FormatsDefined(spec.component, json.value.uplink) && FormatsDefined(spec.component, json.value.downlink)
              && spec.component == json.value.component
              && spec.uplink == MergedFormats(spec.component, json.value.uplink)
              && spec.downlink == MergedFormats(spec.component, json.value.downlink)
    ensures spec != null && json.value.component == map[] ==> spec.uplink == json.value.uplink && spec.downlink == json.value.downlink
    ensures fault == Some(InvalidBlueprintJson) <==> json.None?
  {
    if json.None? {
      return null, Some(InvalidBlueprintJson);
    }
    spec := new Spec(json.value);
    fault := spec.ResolveComponents();
    if fault.Some? {
      return null, fault;
    }
    fault := spec.Validate();
    if fault.Some? {
      return null, fault;
    }
  }

  // ----- what resolution keeps -----

  /** The component at a position of a list of formats, if there is one. */
  function ComponentAt(formats: seq<PayloadFormat>, fi: nat, ci: nat): Option<PayloadComponent> {
    if fi < |formats| && ci < |formats[fi].components| then Some(formats[fi].components[ci]) else None
  }

  /** A value that was left open is the definition's, any other is kept. */
  predicate Inherits<T(==)>(before: T, after: T, open: T, inherited: T) {
    after == if before == open then inherited else before
  }

  /** After resolution the component needs its definition no longer: every value it left open is the definition's. */
  predicate Complete(before: PayloadComponent, after: PayloadComponent, def: ComponentDef) {
    && Inherits(before.size, after.size, 0, def.size) && Inherits(before.kind, after.kind, "", def.kind)
    && Inherits(before.unit, after.unit, "", def.unit) && Inherits(before.func, after.func, "", def.func)
    && Inherits(before.hidden, after.hidden, false, def.hidden)
    && after.name == before.name && after.component == before.component && after.presentation == before.presentation
  }

  /**
   A resolved list has a component at exactly the positions it had one before, in formats
   of the same ID. Each that references a definition is complete with it and each other
   one is untouched.
   */
  lemma ResolvedComponents(defs: Defs, formats: seq<PayloadFormat>, fi: nat, ci: nat)
    requires FormatsDefined(defs, formats)
    ensures var resolved := MergedFormats(defs, formats);
            && |resolved| == |formats|
            && (fi < |formats| ==> resolved[fi].formatId == formats[fi].formatId && resolved[fi].name == formats[fi].name)
            && (ComponentAt(resolved, fi, ci).Some? <==> ComponentAt(formats, fi, ci).Some?)
            && (ComponentAt(formats, fi, ci).Some? ==>
                  var before, after := ComponentAt(formats, fi, ci).value, ComponentAt(resolved, fi, ci).value;
                  if before.component == "" then after == before
                  else before.component in defs && Complete(before, after, defs[before.component]))
  {
    if ComponentAt(formats, fi, ci).Some? {
      assert ComponentsDefined(defs, formats[fi].components);
      assert Defined(defs, formats[fi].components[ci]);
    }
  }

  /** The key is referenced by some component of the formats. */
  predicate References(formats: seq<PayloadFormat>, key: string) {
    key != "" && exists f <- formats :: exists c <- f.components :: c.component == key
  }

  /** The formats resolve exactly when every key they reference has a definition. */
  lemma ResolvesExactlyWhen(defs: Defs, formats: seq<PayloadFormat>)
    ensures FormatsDefined(defs, formats) <==> forall f <- formats :: forall c <- f.components :: c.component == "" || c.component in defs
  {
    if FormatsDefined(defs, formats) {
      forall f, c | f in formats && c in f.components ensures c.component == "" || c.component in defs {
        var i :| 0 <= i < |formats| && formats[i] == f;
        assert ComponentsDefined(defs, formats[i].components);
        var j :| 0 <= j < |f.components| && f.components[j] == c;
        assert Defined(defs, f.components[j]);
      }
    }
  }

  /** Only the definitions the formats reference decide whether they resolve, and to what. */
  lemma OnlyReferencedDefinitionsMatter(defs: Defs, others: Defs, formats: seq<PayloadFormat>)
    requires forall key | References(formats, key) :: (key in defs <==> key in others) && (key in defs ==> defs[key] == others[key])
    ensures FormatsDefined(defs, formats) <==> FormatsDefined(others, formats)
    ensures MergedFormats(defs, formats) == MergedFormats(others, formats)
  {
    forall i | 0 <= i < |formats|
      ensures ComponentsDefined(defs, formats[i].components) <==> ComponentsDefined(others, formats[i].components)
      ensures MergedFormat(defs, formats[i]) == MergedFormat(others, formats[i])
    {
      forall j | 0 <= j < |formats[i].components|
        ensures Defined(defs, formats[i].components[j]) <==> Defined(others, formats[i].components[j])
        ensures Merged(defs, formats[i].components[j]) == Merged(others, formats[i].components[j])
      {
        var key := formats[i].components[j].component;
        assert formats[i] in formats && formats[i].components[j] in formats[i].components;
        assert key != "" ==> References(formats, key);
      }
      assert MergedComponents(defs, formats[i].components) == MergedComponents(others, formats[i].components);
    }
  }

  /** Resolving again changes nothing, and every reference stays defined. */
  lemma ResolvingAgainChangesNothing(defs: Defs, formats: seq<PayloadFormat>)
    ensures MergedFormats(defs, MergedFormats(defs, formats)) == MergedFormats(defs, formats)
    ensures FormatsDefined(defs, MergedFormats(defs, formats)) <==> FormatsDefined(defs, formats)
  {
    var once := MergedFormats(defs, formats);
    forall i | 0 <= i < |formats|
      ensures MergedFormat(defs, once[i]) == once[i]
      ensures ComponentsDefined(defs, once[i].components) <==> ComponentsDefined(defs, formats[i].components)
    {
      var before, after := formats[i].components, once[i].components;
      assert forall j | 0 <= j < |before| :: after[j] == Merged(defs, before[j]);
      assert MergedComponents(defs, after) == after;
      assert forall j | 0 <= j < |before| :: Defined(defs, before[j]) <==> Defined(defs, after[j]);
    }
  }

  /** Resolution changes no format ID, so it neither adds nor removes a duplicate and lookups find the resolved format. */
  lemma {:induction false} ResolutionKeepsLookups(defs: Defs, formats: seq<PayloadFormat>, formatId: Byte)
    ensures DistinctIds(MergedFormats(defs, formats)) <==> DistinctIds(formats)
    ensures Lookup(MergedFormats(defs, formats), formatId)
            == match Lookup(formats, formatId) { case None => None case Some(f) => Some(MergedFormat(defs, f)) }
  {
    var resolved := MergedFormats(defs, formats);
    assert forall i | 0 <= i < |formats| :: resolved[i].formatId == formats[i].formatId;
    if formats == [] {
    } else {
      ResolutionKeepsLookups(defs, formats[1..], formatId);
      assert resolved[1..] == MergedFormats(defs, formats[1..]);
    }
  }
}
