/**
 * `valueParser`: what a variable's raw value becomes in the exported tree when
 * it is an object, i.e. a colour record or a reference to another variable.
 * The host lookups `getVariableByIdAsync` and `getVariableCollectionByIdAsync`
 * are the two maps of `Host`; a lookup that throws is a lookup that finds nothing.
 */
module Resolver {
  import opened Json
  import opened Wrappers
  import Hex
  import Alias
  import Names

  /** A raw value of a variable under one mode. */
  datatype RawValue =
    | Boolean(b: bool)
    | Number(n: real)
    | Text(s: string)
    | Color(rgba: Hex.Rgba)
    | Reference(id: string)

  /** `typeof value === "object"`: colour records and aliases. */
  predicate IsObject(v: RawValue)
  {
    v.Color? || v.Reference?
  }

  /** A primitive raw value as the JavaScript value it already is. */
  function Primitive(v: RawValue): (r: JsValue)
    requires !IsObject(v)
    ensures !r.Obj? && !r.Undefined?
    ensures v.Boolean? ==> r == Bool(v.b)
    ensures v.Number? ==> r == Num(v.n)
    ensures v.Text? ==> r == Str(v.s)
  {
    match v
    case Boolean(b) => Bool(b)
    case Number(n) => Num(n)
    case Text(s) => Str(s)
  }

  datatype Variable = Variable(name: string, variableCollectionId: string, valuesByMode: map<string, RawValue>)

  datatype VariableCollection = VariableCollection(name: string, defaultModeId: string, variableIds: seq<string>)

  /** The host's lookups by identifier. */
  datatype Host = Host(variables: map<string, Variable>, collections: map<string, VariableCollection>)

  /** What `valueParser` returns when a reference cannot be resolved. */
  const Fallback: string := "#000000"

  /** Both lookups of a reference succeed. */
  predicate Resolves(id: string, host: Host)
  {
    id in host.variables && host.variables[id].variableCollectionId in host.collections
  }

  /** `valueParser`. */
  function ValueParser(value: RawValue, host: Host): (r: string)
    requires IsObject(value)
    ensures value.Reference? ==> (r == Fallback <==> !Resolves(value.id, host))
    ensures value.Reference? && Resolves(value.id, host) ==> |r| >= 2 && r[0] == '{' && r[|r| - 1] == '}'
    ensures value.Color? ==> |r| == 7 && r[0] == '#'
  {
    match value
    case Reference(id) =>
      if id in host.variables then
        var variable := host.variables[id];
        if variable.variableCollectionId in host.collections then
          Alias.AliasString(host.collections[variable.variableCollectionId].name, variable.name)
        else Fallback
      else Fallback
    case Color(rgba) => Hex.RgbaToHex(rgba)
  }

  /**
   * A reference resolves to the fallback colour exactly when one of its two
   * lookups finds nothing; otherwise it is an alias in braces, never a colour.
   */
  lemma ReferenceFallback(id: string, host: Host)
    ensures ValueParser(Reference(id), host) == Fallback <==> !Resolves(id, host)
    ensures Resolves(id, host) ==> ValueParser(Reference(id), host)[0] == '{'
  {
  }

  /**
   * A resolved reference is the referenced variable's own collection name and
   * `['…']` path, in braces, whatever characters the name holds.
   */
  lemma ReferenceShape(id: string, host: Host)
    requires Resolves(id, host)
    ensures var variable := host.variables[id];
      var collName := host.collections[variable.variableCollectionId].name;
      ValueParser(Reference(id), host) == "{" + collName + Alias.AliasPath(Names.Split(variable.name)) + "}"
  {
  }

  /**
   * For a name with no single quote, the part between the collection name and
   * the closing brace reads back as the referenced variable's own segments.
   */
  lemma ReferenceAlias(id: string, host: Host)
    requires Resolves(id, host)
    requires '\'' !in host.variables[id].name
    ensures var variable := host.variables[id];
      var collName := host.collections[variable.variableCollectionId].name;
      var r := ValueParser(Reference(id), host);
      && |r| >= 2 + |collName|
      && r[..1 + |collName|] == "{" + collName
      && r[|r| - 1] == '}'
      && Alias.ParseAliasPath(r[1 + |collName|..|r| - 1]) == Some(Names.Split(variable.name))
  {
    var variable := host.variables[id];
    var collName := host.collections[variable.variableCollectionId].name;
    var path := Alias.AliasPath(Names.Split(variable.name));
    var r := ValueParser(Reference(id), host);
    ReferenceShape(id, host);
    assert r[1 + |collName|..|r| - 1] == path;
    Alias.SegmentsQuoteFree(variable.name);
    Alias.ParseAliasPathRoundTrip(Names.Split(variable.name));
  }

  /** A colour becomes `#rrggbb`, each channel readable from its two digits. */
  lemma ColorHex(c: Hex.Rgba, host: Host)
    ensures var r := ValueParser(Color(c), host);
      && |r| == 7 && r[0] == '#' && Hex.IsLowerHex(r[1..])
      && Hex.ParseHex(r[1..3]) == c.r
      && Hex.ParseHex(r[3..5]) == c.g
      && Hex.ParseHex(r[5..7]) == c.b
  {
    Hex.RgbaToHexFormat(c);
  }
}
