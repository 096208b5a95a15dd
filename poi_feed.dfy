/**
 * The `<pois version="2">` feed (CirkwiPOISerializer): what each call writes,
 * as XML trees, and the serializer that writes it through the XML writer.
 */
module PoiFeed {
  import opened Wrappers
  import opened Numbers
  import opened Xml
  import opened Cirkwi

  /** A value handed to serialize_field: a string, an int or a float. */
  datatype Value = Text(s: string) | Integer(n: int) | Float(x: real)

  /** Python truthiness: the empty string, 0 and 0.0 are false. */
  predicate Truthy(v: Value)
  {
    match v
    case Text(s) => s != ""
    case Integer(n) => n != 0
    case Float(x) => x != 0.0
  }

  /** `unicode(value)`. */
  function Unicode(env: Env, v: Value): string
  {
    match v
    case Text(s) => s
    case Integer(n) => IntToString(n)
    case Float(x) => env.floatText(x)
  }

  /** Text that serialize_field writes as CDATA rather than as escaped characters. */
  predicate HasMarkup(s: string)
  {
    '<' in s || '>' in s || '&' in s
  }

  function Content(s: string): (n: Node)
    ensures n == CDataSection(s) || n == CharData(s)
    ensures n.CDataSection? <==> HasMarkup(s)
  {
    if HasMarkup(s) then CDataSection(s) else CharData(s)
  }

  lemma {:induction false} NoMarkupInIntegers(i: int)
    ensures !HasMarkup(IntToString(i))
    ensures Content(IntToString(i)) == CharData(IntToString(i))
  {
    var s := IntToString(i);
    forall k | 0 <= k < |s| ensures s[k] != '<' && s[k] != '>' && s[k] != '&' {
      assert IsDigit(s[k]) || s[k] == '-';
    }
  }

  /** What serialize_field(name, value, attrs) writes. */
  function FieldNodes(env: Env, name: string, v: Value, attrs: map<string, string>): (r: seq<Node>)
    ensures r == [] <==> !Truthy(v) && attrs == map[]
    ensures r != [] ==>
      |r| == 1 && r[0].Element? && r[0].name == name && r[0].attrs == attrs &&
      |r[0].kids| == 1 &&
      (r[0].kids[0] == CDataSection(Unicode(env, v)) || r[0].kids[0] == CharData(Unicode(env, v))) &&
      (r[0].kids[0].CDataSection? <==> HasMarkup(Unicode(env, v)))
  {
    if !Truthy(v) && attrs == map[] then [] else [Element(name, attrs, [Content(Unicode(env, v))])]
  }

  /** One `<image>`: legend, absolute URL and credit, each under the field rule. */
  function ImageNode(env: Env, pic: Picture): Node
  {
    Element("image", map[],
      FieldNodes(env, "legend", Text(pic.legend), map[]) +
      FieldNodes(env, "url", Text(env.absoluteUri(pic.url)), map[]) +
      FieldNodes(env, "credit", Text(pic.author), map[]))
  }

  function ImageNodes(env: Env, pics: seq<Picture>): (r: seq<Node>)
    ensures |r| == |pics|
    ensures forall i :: 0 <= i < |pics| ==> r[i] == ImageNode(env, pics[i])
  {
    seq(|pics|, i requires 0 <= i < |pics| => ImageNode(env, pics[i]))
  }

  lemma {:induction false} ImageNodesSnoc(env: Env, pics: seq<Picture>, i: int)
    requires 0 <= i < |pics|
    ensures ImageNodes(env, pics[..i + 1]) == ImageNodes(env, pics[..i]) + [ImageNode(env, pics[i])]
  {
    assert pics[..i + 1][..i] == pics[..i];
  }

  /** What serialize_medias writes for the pictures of an object. */
  function MediasNodes(env: Env, pics: seq<Picture>): (r: seq<Node>)
    ensures r == [] <==> pics == []
    ensures pics != [] ==>
      |r| == 1 && r[0].Element? && r[0].name == "medias" && r[0].attrs == map[] &&
      |r[0].kids| == 1 && r[0].kids[0].Element? && r[0].kids[0].name == "images" &&
      |r[0].kids[0].kids| == |pics| &&
      forall i :: 0 <= i < |pics| ==> r[0].kids[0].kids[i] == ImageNode(env, pics[i])
  {
    if pics == [] then [] else [Element("medias", map[], [Element("images", map[], ImageNodes(env, pics))])]
  }

  /** The attributes of `<poi>`: the two timestamps and the primary key. */
  function PoiHeader(p: Poi): map<string, string>
  {
    map["date_creation" := Timestamp(p.dateInsert),
        "date_modification" := Timestamp(p.dateUpdate),
        "id_poi" := IntToString(p.pk)]
  }

  /** The `<categories>` block, present when the POI type has a Cirkwi category. */
  function CategoryNodes(env: Env, kind: PoiType): (r: seq<Node>)
    ensures kind.cirkwi.None? ==> r == []
    ensures kind.cirkwi.Some? ==>
      r == [Element("categories", map[],
              [Element("categorie", map["nom" := kind.cirkwi.value.name],
                       [CharData(IntToString(kind.cirkwi.value.eid))])])]
  {
    match kind.cirkwi
    case None => []
    case Some(c) =>
      NoMarkupInIntegers(c.eid);
      [Element("categories", map[], FieldNodes(env, "categorie", Text(IntToString(c.eid)), map["nom" := c.name]))]
  }

  /** One `<informations language=lang>` block of a POI, written while `lang` is active. */
  function PoiInformationNode(env: Env, p: Poi, lang: Lang): Node
  {
    Element("informations", map["language" := lang],
      FieldNodes(env, "titre", Text(p.name(lang)), map[]) +
      FieldNodes(env, "description", Text(env.plainText(p.description(lang))), map[]) +
      MediasNodes(env, p.pictures))
  }

  function PoiInformationNodes(env: Env, p: Poi, langs: seq<Lang>): (r: seq<Node>)
    ensures |r| == |langs|
    ensures forall i :: 0 <= i < |langs| ==> r[i] == PoiInformationNode(env, p, langs[i])
  {
    seq(|langs|, i requires 0 <= i < |langs| => PoiInformationNode(env, p, langs[i]))
  }

  /** `<lat>` from the second coordinate, then `<lng>` from the first; a zero coordinate is falsy and omitted. */
  function PositionNodes(env: Env, c: Coord): (r: seq<Node>)
    ensures |r| == (if c.y != 0.0 then 1 else 0) + (if c.x != 0.0 then 1 else 0)
    ensures c.y != 0.0 ==> r[0] == Element("lat", map[], [Content(env.floatText(c.y))])
    ensures c.x != 0.0 ==> r[|r| - 1] == Element("lng", map[], [Content(env.floatText(c.x))])
  {
    FieldNodes(env, "lat", Float(c.y), map[]) + FieldNodes(env, "lng", Float(c.x), map[])
  }

  /** The `<adresse>` block: the POI's point, reprojected to WGS84. */
  function AddressNode(env: Env, p: Poi): Node
  {
    Element("adresse", map[], [Element("position", map[], PositionNodes(env, TransformPoint(env, p.geom, Wgs84).at))])
  }

  /**
   * The categories of a POI. A POI without a type never gets this far:
   * serialize_pois raises on it first (see PoisOutput).
   */
  function PoiCategories(env: Env, p: Poi): seq<Node>
  {
    if p.poiType.Some? then CategoryNodes(env, p.poiType.value) else []
  }

  /** One `<poi>`: header attributes, categories, one block per language, then the address. */
  function PoiNode(env: Env, p: Poi): Node
  {
    Element("poi", PoiHeader(p),
      PoiCategories(env, p) + PoiInformationNodes(env, p, p.publishedLangs) + [AddressNode(env, p)])
  }

  predicate AllTyped(pois: seq<Poi>)
  {
    forall i :: 0 <= i < |pois| ==> pois[i].poiType.Some?
  }

  function PoiNodes(env: Env, pois: seq<Poi>): (r: seq<Node>)
    ensures |r| == |pois|
    ensures forall i :: 0 <= i < |pois| ==> r[i] == PoiNode(env, pois[i])
  {
    seq(|pois|, i requires 0 <= i < |pois| => PoiNode(env, pois[i]))
  }

  lemma {:induction false} PoiNodesSnoc(env: Env, pois: seq<Poi>, i: int)
    requires 0 <= i < |pois|
    ensures PoiNodes(env, pois[..i + 1]) == PoiNodes(env, pois[..i]) + [PoiNode(env, pois[i])]
  {
    var longer := PoiNodes(env, pois[..i + 1]);
    var shorter := PoiNodes(env, pois[..i]);
    forall j | 0 <= j < i ensures longer[j] == shorter[j] {
      assert pois[..i + 1][j] == pois[..i][j];
    }
    SeqSnoc(longer, shorter, PoiNode(env, pois[i]));
  }

  lemma {:induction false} AllTypedSnoc(pois: seq<Poi>, i: int)
    requires 0 <= i < |pois| && AllTyped(pois[..i]) && pois[i].poiType.Some?
    ensures AllTyped(pois[..i + 1])
  {
    var longer := pois[..i + 1];
    forall j | 0 <= j < |longer| ensures longer[j].poiType.Some? {
      if j < i {
        assert longer[j] == pois[..i][j];
      }
    }
  }

  lemma {:induction false} FirstUntypedAt(pois: seq<Poi>, i: int)
    requires 0 <= i < |pois| && AllTyped(pois[..i]) && pois[i].poiType.None?
    ensures FirstUntyped(pois) == i
    decreases i
  {
    if i > 0 {
      assert pois[..i][0].poiType.Some?;
      var rest := pois[1..];
      var short := rest[..i - 1];
      forall j | 0 <= j < |short| ensures short[j].poiType.Some? {
        assert short[j] == pois[..i][j + 1];
      }
      FirstUntypedAt(rest, i - 1);
    }
  }

  lemma {:induction false} PoiInformationNodesSnoc(env: Env, p: Poi, langs: seq<Lang>, j: int)
    requires 0 <= j < |langs|
    ensures PoiInformationNodes(env, p, langs[..j + 1]) ==
      PoiInformationNodes(env, p, langs[..j]) + [PoiInformationNode(env, p, langs[j])]
  {
    assert langs[..j + 1][..j] == langs[..j];
  }

  /** The position of the first POI without a type, or |pois| when every POI has one. */
  function FirstUntyped(pois: seq<Poi>): (k: nat)
    ensures k <= |pois| && AllTyped(pois[..k])
    ensures k < |pois| ==> pois[k].poiType.None?
    ensures AllTyped(pois) <==> k == |pois|
    decreases |pois|
  {
    if pois == [] then 0
    else if pois[0].poiType.None? then 0
    else
      var k := 1 + FirstUntyped(pois[1..]);
      assert forall i :: 1 <= i < k ==> pois[..k][i] == pois[1..][..k - 1][i - 1];
      k
  }

  /**
   * What serialize_pois writes: every POI up to the first one without a type;
   * for that one only its start tag, after which `poi.type.cirkwi` raises.
   */
  function PoisOutput(env: Env, pois: seq<Poi>): seq<Event>
  {
    var k := FirstUntyped(pois);
    EmitAll(PoiNodes(env, pois[..k])) + (if k < |pois| then [Start("poi", PoiHeader(pois[k]))] else [])
  }

  lemma {:induction false} PoisOutputCut(env: Env, pois: seq<Poi>, i: int)
    requires 0 <= i < |pois| && AllTyped(pois[..i]) && pois[i].poiType.None?
    ensures PoisOutput(env, pois) == EmitAll(PoiNodes(env, pois[..i])) + [Start("poi", PoiHeader(pois[i]))]
  {
    FirstUntypedAt(pois, i);
  }

  lemma {:induction false} PoisOutputAll(env: Env, pois: seq<Poi>)
    requires AllTyped(pois)
    ensures PoisOutput(env, pois) == EmitAll(PoiNodes(env, pois))
  {
    assert pois[..|pois|] == pois;
  }

  const Version2: map<string, string> := map["version" := "2"]

  /** Everything serialize(pois) writes to the stream, complete or cut short. */
  function PoiFeedOutput(env: Env, pois: seq<Poi>): seq<Event>
  {
    [Prolog] + PoiFeedBody(env, pois)
  }

  /** What follows the declaration: the root element and its content. */
  function PoiFeedBody(env: Env, pois: seq<Poi>): seq<Event>
  {
    [Start("pois", Version2)] + PoisOutput(env, pois) + (if AllTyped(pois) then [End("pois")] else [])
  }

  /** How the writer assembles the feed: declaration, root start tag, serialize_pois, root end tag. */
  lemma {:induction false} PoiFeedAssembly(env: Env, pois: seq<Poi>, evs: seq<Event>)
    requires evs == [Prolog] + [Start("pois", Version2)] + PoisOutput(env, pois)
    ensures AllTyped(pois) ==> evs + [End("pois")] == PoiFeedOutput(env, pois)
    ensures !AllTyped(pois) ==> evs == PoiFeedOutput(env, pois)
  {
    var out := PoisOutput(env, pois);
    var tail: seq<Event> := if AllTyped(pois) then [End("pois")] else [];
    assert PoiFeedBody(env, pois) == [Start("pois", Version2)] + out + tail;
    EventsAssoc([Prolog], [Start("pois", Version2)], out, tail);
  }

  /** The document serialize(pois) writes when it completes. */
  function PoiDocument(env: Env, pois: seq<Poi>): Node
  {
    Element("pois", Version2, PoiNodes(env, pois))
  }

  /** A completed feed is the declaration and one `<pois version="2">` tree, and reads back as it. */
  lemma {:induction false} PoiFeedComplete(env: Env, pois: seq<Poi>)
    requires AllTyped(pois)
    ensures PoiFeedOutput(env, pois) == [Prolog] + Emit(PoiDocument(env, pois))
    ensures WellFormedDocument(PoiFeedOutput(env, pois))
    ensures Parse(PoiFeedOutput(env, pois)[1..]) == Some([PoiDocument(env, pois)])
  {
    assert pois[..|pois|] == pois;
    EmitElement("pois", Version2, PoiNodes(env, pois));
    EmitAllOne(PoiDocument(env, pois));
    DocumentOfRoot(PoiDocument(env, pois));
  }

  /** Cut short by a POI without a type, the feed leaves `<pois>` and that `<poi>` open. */
  lemma {:induction false} PoiFeedCut(env: Env, pois: seq<Poi>)
    requires !AllTyped(pois)
    ensures Nest(PoiFeedOutput(env, pois)[1..], []) == Some(["pois", "poi"])
  {
    var k := FirstUntyped(pois);
    var done := EmitAll(PoiNodes(env, pois[..k]));
    assert PoisOutput(env, pois) == done + [Start("poi", PoiHeader(pois[k]))];
    assert PoiFeedOutput(env, pois)[1..] == PoiFeedBody(env, pois);
    assert PoiFeedBody(env, pois) == [Start("pois", Version2)] + PoisOutput(env, pois) + [];
    assert PoiFeedBody(env, pois) == [Start("pois", Version2)] + done + [Start("poi", PoiHeader(pois[k]))];
    NestRootThenCut("pois", Version2, PoiNodes(env, pois[..k]), "poi", PoiHeader(pois[k]));
  }

  /** The feed is a complete document exactly when no POI lacks a type. */
  lemma {:induction false} PoiFeedWellFormed(env: Env, pois: seq<Poi>)
    ensures WellFormedDocument(PoiFeedOutput(env, pois)) <==> AllTyped(pois)
  {
    if AllTyped(pois) {
      PoiFeedComplete(env, pois);
    } else {
      PoiFeedCut(env, pois);
    }
  }

  /**
   * Every `<poi>` carries its key and the truncated epoch seconds of its two
   * dates, one per POI in input order.
   */
  lemma {:induction false} PoiIdentity(env: Env, pois: seq<Poi>, i: int)
    requires 0 <= i < |pois|
    ensures |PoiDocument(env, pois).kids| == |pois|
    ensures var n := PoiDocument(env, pois).kids[i];
      n.Element? && n.name == "poi" &&
      ParseInt(n.attrs["id_poi"]) == Some(pois[i].pk) &&
      ParseInt(n.attrs["date_creation"]) == Some(Trunc(pois[i].dateInsert)) &&
      ParseInt(n.attrs["date_modification"]) == Some(Trunc(pois[i].dateUpdate))
  {
    IntToStringRoundTrip(pois[i].pk);
  }

  /** Inside a `<poi>`: one `<informations>` per published language, in order, each labelled with its language. */
  lemma {:induction false} PoiLanguages(env: Env, p: Poi)
    ensures var infos := Named(PoiNode(env, p).kids, "informations");
      |infos| == |p.publishedLangs| &&
      forall i :: 0 <= i < |infos| ==>
        infos[i] == PoiInformationNode(env, p, p.publishedLangs[i]) &&
        infos[i].attrs == map["language" := p.publishedLangs[i]]
  {
    var cats := PoiCategories(env, p);
    var infos := PoiInformationNodes(env, p, p.publishedLangs);
    NamedMiddle(cats, infos, [AddressNode(env, p)], "informations");
  }

  /** Every `<poi>` holds exactly one `<adresse>`, as its last child, whatever its languages (none included). */
  lemma {:induction false} PoiAddress(env: Env, p: Poi)
    ensures Named(PoiNode(env, p).kids, "adresse") == [AddressNode(env, p)]
    ensures PoiNode(env, p).kids[|PoiNode(env, p).kids| - 1] == AddressNode(env, p)
  {
    var cats := PoiCategories(env, p);
    var infos := PoiInformationNodes(env, p, p.publishedLangs);
    NamedLast(cats, infos, [AddressNode(env, p)], "adresse");
  }

  /**
   * CirkwiPOISerializer: writes through one XML generator, resolves URLs
   * against the request and switches the process-wide active language.
   */
  class PoiSerializer {
    const xml: XmlWriter
    const env: Env
    const translation: Translation

    constructor (env: Env, translation: Translation)
      ensures this.env == env && this.translation == translation
      ensures fresh(xml) && xml.events == [] && xml.open == []
    {
      this.env := env;
      this.translation := translation;
      xml := new XmlWriter();
    }

    /** serialize_field: skip a falsy value without attributes, else one element holding the text. */
    method SerializeField(name: string, value: Value, attrs: map<string, string>)
      requires xml.Valid() && xml.open != []
      modifies xml
      ensures xml.Valid() && xml.open == old(xml.open)
      ensures xml.events == old(xml.events) + EmitAll(FieldNodes(env, name, value, attrs))
    {
      if !Truthy(value) && attrs == map[] {
        return;
      }
      var text := Unicode(env, value);
      xml.StartElement(name, attrs);
      if '<' in text || '>' in text || '&' in text {
        xml.WriteCData(text);
      } else {
        xml.Characters(text);
      }
      xml.EndElement(name);
      EmitElement(name, attrs, [Content(text)]);
      EmitAllOne(Content(text));
      assert old(xml.open) + [name] == xml.open + [name];
    }

    /** serialize_medias: `<medias><images>` around one `<image>` per picture, or nothing. */
    method SerializeMedias(pictures: seq<Picture>)
      requires xml.Valid() && xml.open != []
      modifies xml
      ensures xml.Valid() && xml.open == old(xml.open)
      ensures xml.events == old(xml.events) + EmitAll(MediasNodes(env, pictures))
    {
      if pictures == [] {
        return;
      }
      xml.StartElement("medias", map[]);
      xml.StartElement("images", map[]);
      ghost var start := xml.events;
      var i := 0;
      while i < |pictures|
        invariant 0 <= i <= |pictures|
        invariant xml.Valid() && xml.open == old(xml.open) + ["medias"] + ["images"]
        invariant xml.events == start + EmitAll(ImageNodes(env, pictures[..i]))
      {
        var picture := pictures[i];
        ImageNodesSnoc(env, pictures, i);
        ghost var before := xml.events;
        ghost var legend := FieldNodes(env, "legend", Text(picture.legend), map[]);
        ghost var url := FieldNodes(env, "url", Text(env.absoluteUri(picture.url)), map[]);
        ghost var credit := FieldNodes(env, "credit", Text(picture.author), map[]);
        xml.StartElement("image", map[]);
        SerializeField("legend", Text(picture.legend), map[]);
        SerializeField("url", Text(env.absoluteUri(picture.url)), map[]);
        SerializeField("credit", Text(picture.author), map[]);
        xml.EndElement("image");
        assert xml.events == before + [Start("image", map[])] + EmitAll(legend) + EmitAll(url) + EmitAll(credit) + [End("image")];
        EmitElement3(before, "image", map[], legend, url, credit);
        EmitSnoc(start, ImageNodes(env, pictures[..i]), ImageNode(env, picture));
        i := i + 1;
      }
      assert pictures[..i] == pictures;
      xml.EndElement("images");
      xml.EndElement("medias");
      EmitNested(old(xml.events), "medias", map[], "images", map[], ImageNodes(env, pictures));
    }

    /** The categories block of serialize_pois. */
    method SerializeCategories(kind: PoiType)
      requires xml.Valid() && xml.open != []
      modifies xml
      ensures xml.Valid() && xml.open == old(xml.open)
      ensures xml.events == old(xml.events) + EmitAll(CategoryNodes(env, kind))
    {
      if kind.cirkwi.Some? {
        var category := kind.cirkwi.value;
        xml.StartElement("categories", map[]);
        SerializeField("categorie", Text(IntToString(category.eid)), map["nom" := category.name]);
        xml.EndElement("categories");
        EmitWrapped(old(xml.events), "categories", map[],
          FieldNodes(env, "categorie", Text(IntToString(category.eid)), map["nom" := category.name]));
      }
    }

    /**
     * The language loop of serialize_pois: one `<informations>` per published
     * language, each written while that language is active; the language that
     * was active before is active again afterwards.
     */
    method SerializePoiInformations(poi: Poi)
      requires xml.Valid() && xml.open != []
      modifies xml, translation
      ensures xml.Valid() && xml.open == old(xml.open)
      ensures xml.events == old(xml.events) + EmitAll(PoiInformationNodes(env, poi, poi.publishedLangs))
      ensures translation.language == old(translation.language)
    {
      var origLang := translation.language;
      var j := 0;
      while j < |poi.publishedLangs|
        invariant 0 <= j <= |poi.publishedLangs|
        invariant xml.Valid() && xml.open == old(xml.open)
        invariant xml.events == old(xml.events) + EmitAll(PoiInformationNodes(env, poi, poi.publishedLangs[..j]))
      {
        var lang := poi.publishedLangs[j];
        PoiInformationNodesSnoc(env, poi, poi.publishedLangs, j);
        translation.language := lang;
        ghost var before := xml.events;
        ghost var title := FieldNodes(env, "titre", Text(poi.name(lang)), map[]);
        ghost var description := FieldNodes(env, "description", Text(env.plainText(poi.description(lang))), map[]);
        xml.StartElement("informations", map["language" := lang]);
        SerializeField("titre", Text(poi.name(translation.language)), map[]);
        SerializeField("description", Text(env.plainText(poi.description(translation.language))), map[]);
        SerializeMedias(poi.pictures);
        xml.EndElement("informations");
        assert xml.events == before + [Start("informations", map["language" := lang])] +
          EmitAll(title) + EmitAll(description) + EmitAll(MediasNodes(env, poi.pictures)) + [End("informations")];
        EmitElement3(before, "informations", map["language" := lang], title, description, MediasNodes(env, poi.pictures));
        EmitSnoc(old(xml.events), PoiInformationNodes(env, poi, poi.publishedLangs[..j]), PoiInformationNode(env, poi, lang));
        j := j + 1;
      }
      translation.language := origLang;
      assert poi.publishedLangs[..j] == poi.publishedLangs;
    }

    /** The `<adresse><position>` block: latitude then longitude in WGS84. */
    method SerializeAddress(poi: Poi)
      requires xml.Valid() && xml.open != []
      modifies xml
      ensures xml.Valid() && xml.open == old(xml.open)
      ensures xml.events == old(xml.events) + EmitAll([AddressNode(env, poi)])
    {
      DropLast(xml.open, "adresse");
      DropLast(xml.open + ["adresse"], "position");
      xml.StartElement("adresse", map[]);
      xml.StartElement("position", map[]);
      var coords := TransformPoint(env, poi.geom, Wgs84).at;
      ghost var afterOpen := xml.events;
      SerializeField("lat", Float(coords.y), map[]);
      SerializeField("lng", Float(coords.x), map[]);
      EmitPair(afterOpen, FieldNodes(env, "lat", Float(coords.y), map[]), FieldNodes(env, "lng", Float(coords.x), map[]));
      xml.EndElement("position");
      xml.EndElement("adresse");
      EmitNested(old(xml.events), "adresse", map[], "position", map[], PositionNodes(env, coords));
    }

    /** The body of serialize_pois for one POI that has a type. */
    method SerializePoi(poi: Poi)
      requires xml.Valid() && xml.open != [] && poi.poiType.Some?
      modifies xml, translation
      ensures xml.Valid() && xml.open == old(xml.open)
      ensures xml.events == old(xml.events) + EmitAll([PoiNode(env, poi)])
      ensures translation.language == old(translation.language)
    {
      DropLast(xml.open, "poi");
      xml.StartElement("poi", PoiHeader(poi));
      ghost var afterStart := xml.events;
      SerializeCategories(poi.poiType.value);
      assert PoiCategories(env, poi) == CategoryNodes(env, poi.poiType.value);
      ghost var afterCats := xml.events;
      SerializePoiInformations(poi);
      ghost var afterInfos := xml.events;
      SerializeAddress(poi);
      xml.EndElement("poi");
      ghost var cats := CategoryNodes(env, poi.poiType.value);
      ghost var infos := PoiInformationNodes(env, poi, poi.publishedLangs);
      assert xml.events == old(xml.events) + [Start("poi", PoiHeader(poi))] + EmitAll(cats) + EmitAll(infos) +
        EmitAll([AddressNode(env, poi)]) + [End("poi")];
      EmitElement3(old(xml.events), "poi", PoiHeader(poi), cats, infos, [AddressNode(env, poi)]);
    }

    /** One turn of the loop of serialize_pois, for a POI that has a type. */
    method SerializeNextPoi(ghost before: seq<Event>, pois: seq<Poi>, i: int)
      requires 0 <= i < |pois| && pois[i].poiType.Some?
      requires xml.Valid() && xml.open != [] && xml.events == before + EmitAll(PoiNodes(env, pois[..i]))
      modifies xml, translation
      ensures xml.Valid() && xml.open == old(xml.open)
      ensures xml.events == before + EmitAll(PoiNodes(env, pois[..i + 1]))
      ensures translation.language == old(translation.language)
    {
      PoiNodesSnoc(env, pois, i);
      SerializePoi(pois[i]);
      EmitSnoc(before, PoiNodes(env, pois[..i]), PoiNode(env, pois[i]));
    }

    /**
     * serialize_pois: one `<poi>` per POI, in order. A POI without a type
     * stops it right after its start tag (ok is false) and the rest is not written.
     */
    method SerializePois(pois: seq<Poi>) returns (ok: bool)
      requires xml.Valid() && xml.open != []
      modifies xml, translation
      ensures xml.Valid()
      ensures ok == AllTyped(pois)
      ensures xml.events == old(xml.events) + PoisOutput(env, pois)
      ensures xml.open == if ok then old(xml.open) else old(xml.open) + ["poi"]
      ensures translation.language == old(translation.language)
    {
      var i := 0;
      while i < |pois|
        invariant 0 <= i <= |pois| && AllTyped(pois[..i])
        invariant xml.Valid() && xml.open == old(xml.open)
        invariant xml.events == old(xml.events) + EmitAll(PoiNodes(env, pois[..i]))
        invariant translation.language == old(translation.language)
      {
        var poi := pois[i];
        if poi.poiType.None? {
          // `poi.type.cirkwi` raises on a missing type, after the start tag.
          xml.StartElement("poi", PoiHeader(poi));
          PoisOutputCut(env, pois, i);
          FirstUntypedAt(pois, i);
          Concat3(old(xml.events), EmitAll(PoiNodes(env, pois[..i])), [Start("poi", PoiHeader(poi))]);
          return false;
        }
        AllTypedSnoc(pois, i);
        SerializeNextPoi(old(xml.events), pois, i);
        i := i + 1;
      }
      assert pois[..i] == pois;
      PoisOutputAll(env, pois);
      return true;
    }

    /** serialize(pois): the declaration, then `<pois version="2">` around serialize_pois. */
    method Serialize(pois: seq<Poi>) returns (ok: bool)
      requires xml.events == [] && xml.open == []
      modifies xml, translation
      ensures ok == AllTyped(pois)
      ensures xml.events == PoiFeedOutput(env, pois)
      ensures ok ==> WellFormedDocument(xml.events)
      ensures translation.language == old(translation.language)
    {
      xml.StartDocument();
      xml.StartElement("pois", Version2);
      ok := SerializePois(pois);
      PoiFeedAssembly(env, pois, xml.events);
      if !ok {
        return;
      }
      xml.EndElement("pois");
      xml.EndDocument();
    }
  }
}
