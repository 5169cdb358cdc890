/**
 * The attribute patcher of `updateManifest` (main.go): the decoded manifest's
 * root element keeps a list of attribute objects, and one pass over that list
 * overwrites the package name, the version code (typed and textual) and the
 * version name in place.
 *
 * `PatchAttr` is the specification of what happens to one attribute;
 * `XmlAttribute.Apply` and `UpdateManifest` do it to the heap objects and are
 * proved against it.
 */
module Manifest {

  import opened Wrappers
  import opened Decimal

  /** The Android resource namespace URI. */
  const AndroidNamespace: string := "http://schemas.android.com/apk/res/android"
  const VersionCodeAttr: string := "versionCode"
  const VersionNameAttr: string := "versionName"
  const PackageAttr: string := "package"

  type Uint32 = x: int | 0 <= x < TwoTo32

  /** The compiled primitive of an attribute: a tagged union of which only the int-decimal case matters here. */
  datatype Primitive =
    | PrimitiveUnset
    | IntDecimalValue(intDecimal: Int32)
    | IntHexadecimalValue(intHexadecimal: Uint32)
    | BooleanValue(boolean: bool)
    | OtherPrimitive

  /** The compiled item of an attribute: absent, a primitive, or some other item kind (reference, string, ...). */
  datatype Item = NoItem | PrimItem(prim: Primitive) | OtherItem

  /** The fields of one attribute that the patcher reads or writes. */
  datatype Attr = Attr(namespaceUri: string, name: string, value: string, compiledItem: Item)

  /** The requested overrides; a zero or negative code and empty strings mean "leave alone". */
  datatype Config = Config(versionCode: Int32, versionName: string, packageName: string)

  /** The configuration as built from the command-line flags, with the `uint` to `int32` conversion. */
  function ConfigFromFlags(versionCode: Uint64, versionName: string, packageName: string): (c: Config)
    ensures c.versionName == versionName && c.packageName == packageName
    ensures (c.versionCode - versionCode) % TwoTo32 == 0
  {
    Config(ToInt32(versionCode), versionName, packageName)
  }

  predicate IsPackageAttr(a: Attr) { a.namespaceUri == "" && a.name == PackageAttr }
  predicate IsVersionCodeAttr(a: Attr) { a.namespaceUri == AndroidNamespace && a.name == VersionCodeAttr }
  predicate IsVersionNameAttr(a: Attr) { a.namespaceUri == AndroidNamespace && a.name == VersionNameAttr }

  predicate HasIntDecimal(item: Item) { item.PrimItem? && item.prim.IntDecimalValue? }

  /**
   * One iteration of the loop, on values: the package step, then the
   * Android-namespace switch on the name.
   */
  function PatchAttr(a: Attr, cfg: Config): (r: Attr)
    // identity of the attribute never changes
    ensures r.namespaceUri == a.namespaceUri && r.name == a.name
    // attributes that are none of the three targets are left alone
    ensures !IsPackageAttr(a) && !IsVersionCodeAttr(a) && !IsVersionNameAttr(a) ==> r == a
    // package: value replaced when a package name is requested
    ensures IsPackageAttr(a) && cfg.packageName != "" ==> r == a.(value := cfg.packageName)
    ensures IsPackageAttr(a) && cfg.packageName == "" ==> r == a
    // versionName: value replaced when a version name is requested
    ensures IsVersionNameAttr(a) && cfg.versionName != "" ==> r == a.(value := cfg.versionName)
    ensures IsVersionNameAttr(a) && cfg.versionName == "" ==> r == a
    // versionCode: nothing happens unless the requested code is positive
    ensures IsVersionCodeAttr(a) && cfg.versionCode <= 0 ==> r == a
    // versionCode, positive request: the typed and the textual value are updated independently
    ensures IsVersionCodeAttr(a) && cfg.versionCode > 0 ==>
      && (HasIntDecimal(a.compiledItem) ==> r.compiledItem == PrimItem(IntDecimalValue(cfg.versionCode)))
      && (!HasIntDecimal(a.compiledItem) ==> r.compiledItem == a.compiledItem)
      && (a.value != "" ==> r.value == FormatInt32(cfg.versionCode))
      && (a.value == "" ==> r.value == "")
  {
    var a1 := if IsPackageAttr(a) && cfg.packageName != "" then a.(value := cfg.packageName) else a;
    if a1.namespaceUri != AndroidNamespace then a1
    else if a1.name == VersionCodeAttr then
      if cfg.versionCode > 0 then
        var item := if HasIntDecimal(a1.compiledItem) then PrimItem(IntDecimalValue(cfg.versionCode)) else a1.compiledItem;
        var value := if a1.value != "" then FormatInt32(cfg.versionCode) else a1.value;
        a1.(compiledItem := item, value := value)
      else a1
    else if a1.name == VersionNameAttr then
      if cfg.versionName != "" then a1.(value := cfg.versionName) else a1
    else a1
  }

  /** The whole root attribute list, patched attribute by attribute. */
  function PatchAll(attrs: seq<Attr>, cfg: Config): (r: seq<Attr>)
    ensures |r| == |attrs|
    ensures forall i :: 0 <= i < |attrs| ==> r[i] == PatchAttr(attrs[i], cfg)
  {
    seq(|attrs|, i requires 0 <= i < |attrs| => PatchAttr(attrs[i], cfg))
  }

  /** Patching an attribute that is already patched changes nothing. */
  lemma PatchAttrIdempotent(a: Attr, cfg: Config)
    ensures PatchAttr(PatchAttr(a, cfg), cfg) == PatchAttr(a, cfg)
  {
  }

  /** Applying the same configuration twice gives the same attribute list as applying it once. */
  lemma PatchAllIdempotent(attrs: seq<Attr>, cfg: Config)
    ensures PatchAll(PatchAll(attrs, cfg), cfg) == PatchAll(attrs, cfg)
  {
    forall i | 0 <= i < |attrs|
      ensures PatchAll(PatchAll(attrs, cfg), cfg)[i] == PatchAll(attrs, cfg)[i]
    {
      PatchAttrIdempotent(attrs[i], cfg);
    }
  }

  /** Number, order, namespace URIs and names of the attributes are kept. */
  lemma PatchAllKeepsShape(attrs: seq<Attr>, cfg: Config)
    ensures |PatchAll(attrs, cfg)| == |attrs|
    ensures forall i :: 0 <= i < |attrs| ==>
      PatchAll(attrs, cfg)[i].namespaceUri == attrs[i].namespaceUri && PatchAll(attrs, cfg)[i].name == attrs[i].name
  {
  }

  /** With every override unset, the attribute list is unchanged. */
  lemma PatchAllUnsetIsIdentity(attrs: seq<Attr>, versionCode: Int32)
    requires versionCode <= 0
    ensures PatchAll(attrs, Config(versionCode, "", "")) == attrs
  {
    var r := PatchAll(attrs, Config(versionCode, "", ""));
    assert forall i :: 0 <= i < |attrs| ==> r[i] == attrs[i];
  }

  /**
   * A version code flag whose low 32 bits are zero or have the sign bit set
   * converts to a non-positive int32, so the versionCode attribute is left alone.
   */
  lemma WrappedVersionCodeIgnored(a: Attr, u: Uint64, versionName: string, packageName: string)
    requires IsVersionCodeAttr(a)
    requires u % TwoTo32 == 0 || u % TwoTo32 >= TwoTo31
    ensures PatchAttr(a, ConfigFromFlags(u, versionName, packageName)) == a
  {
    ToInt32Positive(u);
  }

  /**
   * For the versionCode attribute, the typed int-decimal value and the
   * non-empty string value denote the same number.
   */
  predicate CodeConsistent(a: Attr)
  {
    IsVersionCodeAttr(a) && HasIntDecimal(a.compiledItem) && a.value != "" ==> ParseInt(a.value) == Some(a.compiledItem.prim.intDecimal as int)
  }

  /** After a positive version code is applied, the versionCode attribute's typed and textual values agree. */
  lemma PatchMakesCodeConsistent(a: Attr, cfg: Config)
    requires IsVersionCodeAttr(a) && cfg.versionCode > 0
    ensures CodeConsistent(PatchAttr(a, cfg))
    ensures PatchAttr(a, cfg).value != "" ==> ParseInt(PatchAttr(a, cfg).value) == Some(cfg.versionCode as int)
  {
    FormatParseRoundTrip(cfg.versionCode);
  }

  /** Patching never breaks agreement between the two forms of the version code. */
  lemma PatchKeepsCodeConsistent(a: Attr, cfg: Config)
    requires CodeConsistent(a)
    ensures CodeConsistent(PatchAttr(a, cfg))
  {
    if IsVersionCodeAttr(a) && cfg.versionCode > 0 {
      PatchMakesCodeConsistent(a, cfg);
    }
  }

  /**
   * The worked example: package "com.example.old", versionCode 5 both typed
   * and as text, versionName "1.0", and an unrelated attribute; apply code 42,
   * name "2.0.1" and package "com.example.new".
   */
  lemma PatchExample()
    ensures
      var before := [
        Attr("", "package", "com.example.old", NoItem),
        Attr(AndroidNamespace, "versionCode", "5", PrimItem(IntDecimalValue(5))),
        Attr(AndroidNamespace, "versionName", "1.0", NoItem),
        Attr(AndroidNamespace, "minSdkVersion", "21", PrimItem(IntDecimalValue(21)))];
      PatchAll(before, Config(42, "2.0.1", "com.example.new")) == [
        Attr("", "package", "com.example.new", NoItem),
        Attr(AndroidNamespace, "versionCode", "42", PrimItem(IntDecimalValue(42))),
        Attr(AndroidNamespace, "versionName", "2.0.1", NoItem),
        Attr(AndroidNamespace, "minSdkVersion", "21", PrimItem(IntDecimalValue(21)))]
  {
    assert FormatInt32(42) == "42";
  }

  /** A decoded attribute record; the loop writes `value` and `compiledItem` through it. */
  class XmlAttribute {
    var namespaceUri: string
    var name: string
    var value: string
    var compiledItem: Item

    constructor (a: Attr)
      ensures View() == a
    {
      namespaceUri, name, value, compiledItem := a.namespaceUri, a.name, a.value, a.compiledItem;
    }

    function View(): Attr
      reads this
    {
      Attr(namespaceUri, name, value, compiledItem)
    }

    /** The body of the loop for this attribute. */
    method Apply(cfg: Config)
      modifies this
      ensures View() == PatchAttr(old(View()), cfg)
    {
      if namespaceUri == "" && name == PackageAttr {
        if cfg.packageName != "" {
          value := cfg.packageName;
        }
      }
      if namespaceUri != AndroidNamespace {
        return;
      }
      if name == VersionCodeAttr {
        if cfg.versionCode > 0 {
          match compiledItem {
            case PrimItem(IntDecimalValue(_)) =>
              compiledItem := PrimItem(IntDecimalValue(cfg.versionCode));
            case _ =>
          }
          if value != "" {
            value := FormatInt32(cfg.versionCode);
          }
        }
      } else if name == VersionNameAttr {
        if cfg.versionName != "" {
          value := cfg.versionName;
        }
      }
    }
  }

  /** A decoded element: its attribute list and its children, which the patcher never visits. */
  class XmlElement {
    var attribute: seq<XmlAttribute>
    var child: seq<XmlNode>

    constructor (attribute: seq<XmlAttribute>, child: seq<XmlNode>)
      ensures this.attribute == attribute && this.child == child
    {
      this.attribute, this.child := attribute, child;
    }
  }

  /** A decoded node; `element` is null for a text node. */
  class XmlNode {
    var element: XmlElement?

    constructor (element: XmlElement?)
      ensures this.element == element
    {
      this.element := element;
    }
  }

  /** The root element's attributes, empty when the node carries no element (Go's nil-safe getters). */
  function RootAttributes(node: XmlNode): seq<XmlAttribute>
    reads node, node.element
  {
    if node.element == null then [] else node.element.attribute
  }

  function Views(attrs: seq<XmlAttribute>): (r: seq<Attr>)
    reads set a | a in attrs
    ensures |r| == |attrs| && forall i :: 0 <= i < |attrs| ==> r[i] == attrs[i].View()
  {
    seq(|attrs|, i requires 0 <= i < |attrs| reads set a | a in attrs => attrs[i].View())
  }

  /**
   * The loop of `updateManifest`. Each root attribute ends as `PatchAttr` of
   * its old contents; the node, the element, its attribute list and its
   * children are not modified. Attribute objects need not be distinct:
   * visiting an object twice is harmless because patching is idempotent.
   */
  method UpdateManifest(node: XmlNode, cfg: Config)
    modifies set a | a in RootAttributes(node)
    ensures node.element == old(node.element)
    ensures node.element != null ==>
      node.element.attribute == old(node.element.attribute) && node.element.child == old(node.element.child)
    ensures Views(RootAttributes(node)) == PatchAll(old(Views(RootAttributes(node))), cfg)
  {
    var attrs := RootAttributes(node);
    for i := 0 to |attrs|
      invariant forall j :: 0 <= j < |attrs| ==>
        attrs[j].View() == if attrs[j] in attrs[..i] then PatchAttr(old(attrs[j].View()), cfg) else old(attrs[j].View())
    {
      var attr := attrs[i];
      ghost var seen := attr in attrs[..i];
      if seen {
        PatchAttrIdempotent(old(attr.View()), cfg);
      }
      attr.Apply(cfg);
      assert attrs[..i + 1] == attrs[..i] + [attr];
    }
    assert attrs[..|attrs|] == attrs;
  }
}
