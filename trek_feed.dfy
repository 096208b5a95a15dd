/**
 * The `<circuits version="2">` feed (CirkwiTrekSerializer): what each call
 * writes, as XML trees, and the serializer that writes it. The embedded POIs
 * reuse the POI feed's `serialize_pois`.
 */
module TrekFeed {
  import opened Wrappers
  import opened Numbers
  import opened Xml
  import opened Cirkwi
  import opened PoiFeed

  // ----- serialize_additionnal_info -------------------------------------

  /** One `<information_complementaire>`: the field's label, then its value with markup stripped. */
  function AdditionalInfoNode(env: Env, t: Trek, f: InfoField, lang: Lang): Node
  {
    Element("information_complementaire", map[],
      FieldNodes(env, "titre", Text(env.verboseName(f, lang)), map[]) +
      FieldNodes(env, "description", Text(env.plainText(Info(t, f)(lang))), map[]))
  }

  /** What serialize_additionnal_info(trek, f) writes while `lang` is active. */
  function AdditionalInfoNodes(env: Env, t: Trek, f: InfoField, lang: Lang): seq<Node>
  {
    if Info(t, f)(lang) == "" then [] else [AdditionalInfoNode(env, t, f, lang)]
  }

  /** The supplementary blocks for the fields `fs`, in the order of `fs`. */
  function InfoNodes(env: Env, t: Trek, fs: seq<InfoField>, lang: Lang): seq<Node>
    decreases |fs|
  {
    if fs == [] then []
    else InfoNodes(env, t, fs[..|fs| - 1], lang) + AdditionalInfoNodes(env, t, fs[|fs| - 1], lang)
  }

  /** The fields of `fs` that have a value in `lang`, in the order of `fs`. */
  function PresentFields(t: Trek, fs: seq<InfoField>, lang: Lang): (r: seq<InfoField>)
    ensures forall f :: f in r <==> f in fs && Info(t, f)(lang) != ""
    ensures |r| <= |fs|
    decreases |fs|
  {
    if fs == [] then []
    else
      var last := fs[|fs| - 1];
      PresentFields(t, fs[..|fs| - 1], lang) + (if Info(t, last)(lang) == "" then [] else [last])
  }

  lemma {:induction false} InfoNodesSnoc(env: Env, t: Trek, fs: seq<InfoField>, lang: Lang, k: int)
    requires 0 <= k < |fs|
    ensures InfoNodes(env, t, fs[..k + 1], lang) == InfoNodes(env, t, fs[..k], lang) + AdditionalInfoNodes(env, t, fs[k], lang)
  {
    assert fs[..k + 1][..k] == fs[..k];
  }

  /** One block per field of `ps`, in the order of `ps`. */
  function PresentNodes(env: Env, t: Trek, ps: seq<InfoField>, lang: Lang): (r: seq<Node>)
    ensures |r| == |ps| && forall i :: 0 <= i < |ps| ==> r[i] == AdditionalInfoNode(env, t, ps[i], lang)
  {
    seq(|ps|, i requires 0 <= i < |ps| => AdditionalInfoNode(env, t, ps[i], lang))
  }

  lemma {:induction false} PresentNodesSnoc(env: Env, t: Trek, ps: seq<InfoField>, f: InfoField, lang: Lang)
    ensures PresentNodes(env, t, ps + [f], lang) == PresentNodes(env, t, ps, lang) + [AdditionalInfoNode(env, t, f, lang)]
  {
    var longer := PresentNodes(env, t, ps + [f], lang);
    var shorter := PresentNodes(env, t, ps, lang);
    forall j | 0 <= j < |ps| ensures longer[j] == shorter[j] {
      assert (ps + [f])[j] == ps[j];
    }
    SeqSnoc(longer, shorter, AdditionalInfoNode(env, t, f, lang));
  }

  lemma {:induction false} InfoNodesAsPresent(env: Env, t: Trek, fs: seq<InfoField>, lang: Lang)
    ensures InfoNodes(env, t, fs, lang) == PresentNodes(env, t, PresentFields(t, fs, lang), lang)
    decreases |fs|
  {
    if fs != [] {
      var init := fs[..|fs| - 1];
      var last := fs[|fs| - 1];
      InfoNodesAsPresent(env, t, init, lang);
      var p := PresentFields(t, init, lang);
      if Info(t, last)(lang) == "" {
        assert PresentFields(t, fs, lang) == p;
        assert InfoNodes(env, t, fs, lang) == InfoNodes(env, t, init, lang);
      } else {
        PresentNodesSnoc(env, t, p, last, lang);
        assert PresentFields(t, fs, lang) == p + [last];
        assert InfoNodes(env, t, fs, lang) == InfoNodes(env, t, init, lang) + [AdditionalInfoNode(env, t, last, lang)];
      }
    }
  }

  /** The supplementary blocks are exactly one block per field that has a value, in field order. */
  lemma {:induction false} InfoNodesPresent(env: Env, t: Trek, fs: seq<InfoField>, lang: Lang)
    ensures |InfoNodes(env, t, fs, lang)| == |PresentFields(t, fs, lang)|
    ensures forall i :: 0 <= i < |PresentFields(t, fs, lang)| ==>
      InfoNodes(env, t, fs, lang)[i] == AdditionalInfoNode(env, t, PresentFields(t, fs, lang)[i], lang)
  {
    InfoNodesAsPresent(env, t, fs, lang);
  }

  /** Position of a field in the feed's fixed order. */
  function FieldIndex(f: InfoField): (i: nat)
    ensures i < |InfoFields| && InfoFields[i] == f
  {
    match f
    case Departure => 0
    case Arrival => 1
    case Ambiance => 2
    case Access => 3
    case DisabledInfrastructure => 4
    case AdvisedParking => 5
    case PublicTransport => 6
    case Advice => 7
  }

  predicate InFieldOrder(fs: seq<InfoField>)
  {
    forall i, j :: 0 <= i < j < |fs| ==> FieldIndex(fs[i]) < FieldIndex(fs[j])
  }

  lemma {:induction false} PresentFieldsOrdered(t: Trek, fs: seq<InfoField>, lang: Lang)
    requires InFieldOrder(fs)
    ensures InFieldOrder(PresentFields(t, fs, lang))
    decreases |fs|
  {
    if fs != [] {
      var init := fs[..|fs| - 1];
      var last := fs[|fs| - 1];
      assert InFieldOrder(init) by {
        forall i, j | 0 <= i < j < |init| ensures FieldIndex(init[i]) < FieldIndex(init[j]) {
          assert init[i] == fs[i] && init[j] == fs[j];
        }
      }
      PresentFieldsOrdered(t, init, lang);
      var p := PresentFields(t, init, lang);
      forall i | 0 <= i < |p| ensures FieldIndex(p[i]) < FieldIndex(last) {
        assert p[i] in init;
        var k :| 0 <= k < |init| && init[k] == p[i];
        assert fs[k] == p[i];
      }
    }
  }

  /** The fixed list names every field once, in field order. */
  lemma {:induction false} InfoFieldsOrdered()
    ensures InFieldOrder(InfoFields)
    ensures forall f :: f in InfoFields
  {
    forall i | 0 <= i < |InfoFields| ensures FieldIndex(InfoFields[i]) == i {
      if i == 0 { assert InfoFields[i] == Departure; }
      else if i == 1 { assert InfoFields[i] == Arrival; }
      else if i == 2 { assert InfoFields[i] == Ambiance; }
      else if i == 3 { assert InfoFields[i] == Access; }
      else if i == 4 { assert InfoFields[i] == DisabledInfrastructure; }
      else if i == 5 { assert InfoFields[i] == AdvisedParking; }
      else if i == 6 { assert InfoFields[i] == PublicTransport; }
      else { assert InfoFields[i] == Advice; }
    }
    forall f ensures f in InfoFields {
      assert InfoFields[FieldIndex(f)] == f;
    }
  }

  /**
   * `<informations_complementaires>`: the supplementary fields that have a
   * value, in the order departure, arrival, ambiance, access,
   * disabled_infrastructure, advised_parking, public_transport, advice.
   */
  function InfoComplementairesNode(env: Env, t: Trek, lang: Lang): Node
  {
    Element("informations_complementaires", map[], InfoNodes(env, t, InfoFields, lang))
  }

  lemma {:induction false} InfoComplementairesContent(env: Env, t: Trek, lang: Lang)
    ensures var kids := InfoComplementairesNode(env, t, lang).kids;
      var present := PresentFields(t, InfoFields, lang);
      |kids| == |present| && InFieldOrder(present) &&
      (forall f :: f in present <==> Info(t, f)(lang) != "") &&
      forall i :: 0 <= i < |kids| ==> kids[i] == AdditionalInfoNode(env, t, present[i], lang)
  {
    InfoNodesPresent(env, t, InfoFields, lang);
    InfoFieldsOrdered();
    PresentFieldsOrdered(t, InfoFields, lang);
  }

  // ----- serialize_description ------------------------------------------

  /** The teaser, followed by a blank line and the description when both are non-empty. */
  function MergedDescription(t: Trek, lang: Lang): string
  {
    var teaser := t.descriptionTeaser(lang);
    if teaser != "" && t.description(lang) != "" then teaser + "\n\n" + t.description(lang) else teaser
  }

  /** What serialize_description writes while `lang` is active. */
  function DescriptionNodes(env: Env, t: Trek, lang: Lang): seq<Node>
  {
    var merged := MergedDescription(t, lang);
    if merged == "" then [] else FieldNodes(env, "description", Text(env.plainText(merged)), map[])
  }

  /** The three cases of the merged description; an empty teaser suppresses it even when a description exists. */
  lemma {:induction false} DescriptionCases(env: Env, t: Trek, lang: Lang)
    ensures t.descriptionTeaser(lang) == "" ==> DescriptionNodes(env, t, lang) == []
    ensures t.descriptionTeaser(lang) != "" && t.description(lang) != "" ==>
      DescriptionNodes(env, t, lang) ==
        FieldNodes(env, "description", Text(env.plainText(t.descriptionTeaser(lang) + "\n\n" + t.description(lang))), map[])
    ensures t.descriptionTeaser(lang) != "" && t.description(lang) == "" ==>
      DescriptionNodes(env, t, lang) == FieldNodes(env, "description", Text(env.plainText(t.descriptionTeaser(lang))), map[])
    ensures |DescriptionNodes(env, t, lang)| <= 1
  {
    var teaser := t.descriptionTeaser(lang);
    if teaser != "" && t.description(lang) != "" {
      assert |teaser + "\n\n" + t.description(lang)| > 0;
    }
  }

  // ----- serialize_tags -------------------------------------------------

  /** The difficulty's tag id, when it has a truthy one. */
  function DifficultyTagId(t: Trek): Option<int>
  {
    if t.difficulty.Some? && t.difficulty.value.cirkwiId.Some? && t.difficulty.value.cirkwiId.value != 0
    then t.difficulty.value.cirkwiId else None
  }

  /** The `tag_ids` list: theme ids, then accessibility ids, then the difficulty's id. */
  function TagIds(t: Trek): seq<Option<int>>
  {
    t.themeCirkwiIds + t.accessibilityCirkwiIds + (if DifficultyTagId(t).Some? then [DifficultyTagId(t)] else [])
  }

  /** `CirkwiTag.objects.filter(id__in=ids)`: the rows of the table whose id is listed, in table order. */
  function TagLookup(table: seq<CirkwiTag>, ids: seq<Option<int>>): (r: seq<CirkwiTag>)
    ensures forall tag :: tag in r <==> tag in table && Some(tag.id) in ids
    ensures |r| <= |table|
    decreases |table|
  {
    if table == [] then []
    else
      var last := table[|table| - 1];
      TagLookup(table[..|table| - 1], ids) + (if Some(last.id) in ids then [last] else [])
  }

  /** The lookup keeps the table's order: its result is the table with the unlisted rows removed. */
  lemma {:induction false} TagLookupOrder(table: seq<CirkwiTag>, ids: seq<Option<int>>, i: int, j: int)
    requires 0 <= i < j < |TagLookup(table, ids)|
    ensures exists a, b :: 0 <= a < b < |table| && table[a] == TagLookup(table, ids)[i] && table[b] == TagLookup(table, ids)[j]
    decreases |table|
  {
    var init := table[..|table| - 1];
    var r := TagLookup(table, ids);
    var p := TagLookup(init, ids);
    assert r == p + (if Some(table[|table| - 1].id) in ids then [table[|table| - 1]] else []);
    if j < |p| {
      TagLookupOrder(init, ids, i, j);
      var a, b :| 0 <= a < b < |init| && init[a] == p[i] && init[b] == p[j];
      assert table[a] == r[i] && table[b] == r[j];
    } else {
      assert p[i] in init;
      var a :| 0 <= a < |init| && init[a] == p[i];
      assert table[a] == r[i] && table[|table| - 1] == r[j];
    }
  }

  function TagAttrs(tag: CirkwiTag): map<string, string>
  {
    map["id" := IntToString(tag.eid), "nom" := tag.name]
  }

  /** One attribute-only `<tag_public id nom>`. */
  function TagNode(tag: CirkwiTag): Node
  {
    Element("tag_public", TagAttrs(tag), [CharData("")])
  }

  function TagNodes(tags: seq<CirkwiTag>): (r: seq<Node>)
    ensures |r| == |tags| && forall i :: 0 <= i < |tags| ==> r[i] == TagNode(tags[i])
  {
    seq(|tags|, i requires 0 <= i < |tags| => TagNode(tags[i]))
  }

  lemma {:induction false} TagNodesSnoc(tags: seq<CirkwiTag>, i: int)
    requires 0 <= i < |tags|
    ensures TagNodes(tags[..i + 1]) == TagNodes(tags[..i]) + [TagNode(tags[i])]
  {
    assert TagNodes(tags[..i + 1]) == TagNodes(tags[..i]) + [TagNode(tags[i])];
  }

  /** serialize_field('tag_public', '', attrs) with non-empty attributes writes one empty element. */
  lemma {:induction false} TagField(env: Env, tag: CirkwiTag)
    ensures FieldNodes(env, "tag_public", Text(""), TagAttrs(tag)) == [TagNode(tag)]
  {
    assert "id" in TagAttrs(tag);
  }

  /** The CirkwiTag rows serialize_tags looks up for a trek. */
  function TagsFound(env: Env, t: Trek): seq<CirkwiTag>
  {
    TagLookup(env.cirkwiTags, TagIds(t))
  }

  /** `<tags_publics>`, always present, around one `<tag_public>` per row found. */
  function TagsNode(env: Env, t: Trek): Node
  {
    Element("tags_publics", map[], TagNodes(TagsFound(env, t)))
  }

  /** A row is found exactly when its id is a theme's, an accessibility's or the difficulty's tag id. */
  lemma {:induction false} TagsListed(env: Env, t: Trek, tag: CirkwiTag)
    ensures tag in TagsFound(env, t) <==>
      tag in env.cirkwiTags &&
      (Some(tag.id) in t.themeCirkwiIds || Some(tag.id) in t.accessibilityCirkwiIds || DifficultyTagId(t) == Some(tag.id))
    ensures |TagsNode(env, t).kids| == |TagsFound(env, t)|
  {
    var ids := TagIds(t);
    var extra: seq<Option<int>> := if DifficultyTagId(t).Some? then [DifficultyTagId(t)] else [];
    assert ids == t.themeCirkwiIds + t.accessibilityCirkwiIds + extra;
    assert Some(tag.id) in ids <==>
      Some(tag.id) in t.themeCirkwiIds || Some(tag.id) in t.accessibilityCirkwiIds || Some(tag.id) in extra;
  }

  // ----- serializable_locomotions ---------------------------------------

  /** The practice's Cirkwi locomotion, when the trek has a practice that has one. */
  function PracticeLocomotion(t: Trek): Option<CirkwiLocomotion>
  {
    if t.practice.Some? then t.practice.value.cirkwi else None
  }

  /** The difficulty's Cirkwi level, when truthy. */
  function DifficultyLevel(t: Trek): Option<int>
  {
    if t.difficulty.Some? && t.difficulty.value.cirkwiLevel.Some? && t.difficulty.value.cirkwiLevel.value != 0
    then t.difficulty.value.cirkwiLevel else None
  }

  /** The duration, when truthy. */
  function TruthyDuration(t: Trek): Option<real>
  {
    if t.duration.Some? && t.duration.value != 0.0 then t.duration else None
  }

  /** The attributes serializable_locomotions collects. */
  function LocomotionAttrs(t: Trek): map<string, string>
  {
    WithDuration(t, WithLevel(t, PracticeAttrs(t)))
  }

  /** `type` and `id_locomotion` come from the practice's Cirkwi locomotion, and only from it. */
  lemma {:induction false} LocomotionType(t: Trek)
    ensures var attrs := LocomotionAttrs(t);
      ("type" in attrs <==> PracticeLocomotion(t).Some?) && ("id_locomotion" in attrs <==> PracticeLocomotion(t).Some?) &&
      (PracticeLocomotion(t).Some? ==>
        attrs["type"] == PracticeLocomotion(t).value.name &&
        ParseInt(attrs["id_locomotion"]) == Some(PracticeLocomotion(t).value.eid))
  {
    if PracticeLocomotion(t).Some? {
      IntToStringRoundTrip(PracticeLocomotion(t).value.eid);
    }
  }

  /** `difficulte` is the difficulty's truthy Cirkwi level. */
  lemma {:induction false} LocomotionDifficulty(t: Trek)
    ensures var attrs := LocomotionAttrs(t);
      ("difficulte" in attrs <==> DifficultyLevel(t).Some?) &&
      (DifficultyLevel(t).Some? ==> ParseInt(attrs["difficulte"]) == Some(DifficultyLevel(t).value))
  {
    if DifficultyLevel(t).Some? {
      IntToStringRoundTrip(DifficultyLevel(t).value);
    }
  }

  /** `duree` is the truthy duration in hours, as whole minutes truncated toward zero. */
  lemma {:induction false} LocomotionDuration(t: Trek)
    ensures var attrs := LocomotionAttrs(t);
      ("duree" in attrs <==> TruthyDuration(t).Some?) &&
      (TruthyDuration(t).Some? ==> ParseInt(attrs["duree"]) == Some(Trunc(TruthyDuration(t).value * 60.0)))
  {
    if TruthyDuration(t).Some? {
      IntToStringRoundTrip(Trunc(TruthyDuration(t).value * 60.0));
    }
  }

  /** No other attribute is ever set. */
  lemma {:induction false} LocomotionKeys(t: Trek)
    ensures LocomotionAttrs(t).Keys <= {"type", "id_locomotion", "difficulte", "duree"}
  {
  }

  /** The first step of serializable_locomotions: the practice's locomotion name and id. */
  function PracticeAttrs(t: Trek): map<string, string>
  {
    if PracticeLocomotion(t).None? then map[]
    else map[]["type" := PracticeLocomotion(t).value.name]["id_locomotion" := IntToString(PracticeLocomotion(t).value.eid)]
  }

  /** The second step: the difficulty's level. */
  function WithLevel(t: Trek, attrs: map<string, string>): map<string, string>
  {
    if DifficultyLevel(t).None? then attrs else attrs["difficulte" := IntToString(DifficultyLevel(t).value)]
  }

  /** The third step: the duration, in whole minutes. */
  function WithDuration(t: Trek, attrs: map<string, string>): map<string, string>
  {
    if TruthyDuration(t).None? then attrs else attrs["duree" := IntToString(Trunc(TruthyDuration(t).value * 60.0))]
  }

  /** What serializable_locomotions writes: nothing, or one attribute-only `<locomotion>` in `<locomotions>`. */
  function LocomotionNodes(env: Env, t: Trek): seq<Node>
  {
    var attrs := LocomotionAttrs(t);
    if attrs == map[] then [] else [Element("locomotions", map[], FieldNodes(env, "locomotion", Text(""), attrs))]
  }

  /** The block appears exactly when one of the three sources is truthy, and then holds one empty `<locomotion>`. */
  lemma {:induction false} LocomotionShape(env: Env, t: Trek)
    ensures LocomotionNodes(env, t) == [] <==>
      PracticeLocomotion(t).None? && DifficultyLevel(t).None? && TruthyDuration(t).None?
    ensures LocomotionNodes(env, t) != [] ==>
      LocomotionNodes(env, t) == [Element("locomotions", map[], [Element("locomotion", LocomotionAttrs(t), [CharData("")])])]
  {
    var attrs := LocomotionAttrs(t);
    LocomotionType(t);
    LocomotionDifficulty(t);
    LocomotionDuration(t);
    LocomotionKeys(t);
    if PracticeLocomotion(t).Some? {
      assert "type" in attrs;
    } else if DifficultyLevel(t).Some? {
      assert "difficulte" in attrs;
    } else if TruthyDuration(t).Some? {
      assert "duree" in attrs;
    } else {
      assert attrs.Keys == {};
    }
  }

  // ----- serialize_trace ------------------------------------------------

  /** One `<point>`: `<lat>` from the second coordinate, `<lng>` from the first. */
  function PointNode(env: Env, c: Coord): Node
  {
    Element("point", map[], PositionNodes(env, c))
  }

  function PointNodes(env: Env, cs: seq<Coord>): (r: seq<Node>)
    ensures |r| == |cs| && forall i :: 0 <= i < |cs| ==> r[i] == PointNode(env, cs[i])
  {
    seq(|cs|, i requires 0 <= i < |cs| => PointNode(env, cs[i]))
  }

  lemma {:induction false} PointNodesSnoc(env: Env, cs: seq<Coord>, i: int)
    requires 0 <= i < |cs|
    ensures PointNodes(env, cs[..i + 1]) == PointNodes(env, cs[..i]) + [PointNode(env, cs[i])]
  {
    assert PointNodes(env, cs[..i + 1]) == PointNodes(env, cs[..i]) + [PointNode(env, cs[i])];
  }

  /** `<trace>`: one point per vertex of the line in WGS84. */
  function TraceNode(env: Env, t: Trek): Node
  {
    Element("trace", map[], PointNodes(env, TransformLine(env, t.geom, Wgs84).vertices))
  }

  /** The trace follows the vertices in order, each reprojected unless the line already is in WGS84. */
  lemma {:induction false} TraceVertices(env: Env, t: Trek, i: int)
    requires 0 <= i < |t.geom.vertices|
    ensures |TraceNode(env, t).kids| == |t.geom.vertices|
    ensures TraceNode(env, t).kids[i] ==
      PointNode(env, if t.geom.srid == Wgs84 then t.geom.vertices[i] else env.reproject(t.geom.srid, Wgs84, t.geom.vertices[i]))
  {
  }

  // ----- serialize ------------------------------------------------------

  /** The attributes of `<circuit>`: the two timestamps and the primary key. */
  function TrekHeader(t: Trek): map<string, string>
  {
    map["date_creation" := Timestamp(t.dateInsert),
        "date_modification" := Timestamp(t.dateUpdate),
        "id_circuit" := IntToString(t.pk)]
  }

  /** `<distance>`: the length truncated to an integer, omitted when that is 0. */
  function DistanceNodes(env: Env, t: Trek): seq<Node>
  {
    FieldNodes(env, "distance", Integer(Trunc(t.length)), map[])
  }

  /** One `<informations language=lang>` of a trek, written while `lang` is active. */
  function TrekInformationNode(env: Env, t: Trek, lang: Lang): Node
  {
    Element("informations", map["language" := lang],
      FieldNodes(env, "titre", Text(t.name(lang)), map[]) + DescriptionNodes(env, t, lang) +
      MediasNodes(env, t.pictures) + [InfoComplementairesNode(env, t, lang)] + [TagsNode(env, t)])
  }

  /** One turn of the language loop: the informations block, then distance and locomotions after it. */
  function LanguageNodes(env: Env, t: Trek, lang: Lang): seq<Node>
  {
    [TrekInformationNode(env, t, lang)] + DistanceNodes(env, t) + LocomotionNodes(env, t)
  }

  function LocalizedNodes(env: Env, t: Trek, langs: seq<Lang>): seq<Node>
    decreases |langs|
  {
    if langs == [] then []
    else LocalizedNodes(env, t, langs[..|langs| - 1]) + LanguageNodes(env, t, langs[|langs| - 1])
  }

  lemma {:induction false} LocalizedNodesSnoc(env: Env, t: Trek, langs: seq<Lang>, j: int)
    requires 0 <= j < |langs|
    ensures LocalizedNodes(env, t, langs[..j + 1]) == LocalizedNodes(env, t, langs[..j]) + LanguageNodes(env, t, langs[j])
  {
    assert langs[..j + 1][..j] == langs[..j];
  }

  /** The trek's POIs with their points reprojected to WGS84 by the query. */
  function EmbeddedPois(env: Env, t: Trek): seq<Poi>
  {
    ReprojectPois(env, t.publishedPois)
  }

  lemma {:induction false} EmbeddedPoisTyped(env: Env, t: Trek)
    ensures AllTyped(EmbeddedPois(env, t)) <==> AllTyped(t.publishedPois)
    ensures |EmbeddedPois(env, t)| == |t.publishedPois|
  {
    var e := EmbeddedPois(env, t);
    assert forall i :: 0 <= i < |e| ==> e[i].poiType == t.publishedPois[i].poiType;
  }

  /** The `<pois>` block of a circuit, present only when the trek has published POIs. */
  function EmbeddedPoisNodes(env: Env, t: Trek): seq<Node>
  {
    if t.publishedPois == [] then [] else [Element("pois", map[], PoiNodes(env, EmbeddedPois(env, t)))]
  }

  predicate Complete(t: Trek)
  {
    AllTyped(t.publishedPois)
  }

  /** One `<circuit>`, when none of its POIs lacks a type. */
  function CircuitNode(env: Env, t: Trek): Node
  {
    Element("circuit", TrekHeader(t),
      LocalizedNodes(env, t, t.publishedLangs) + [TraceNode(env, t)] + EmbeddedPoisNodes(env, t))
  }

  /** What the loop body of serialize writes for one trek, complete or cut short inside its POIs. */
  function CircuitOutput(env: Env, t: Trek): seq<Event>
  {
    if Complete(t) then EmitAll([CircuitNode(env, t)])
    else
      [Start("circuit", TrekHeader(t))] + EmitAll(LocalizedNodes(env, t, t.publishedLangs)) +
      EmitAll([TraceNode(env, t)]) + [Start("pois", map[])] + PoisOutput(env, EmbeddedPois(env, t))
  }

  predicate AllComplete(treks: seq<Trek>)
  {
    forall i :: 0 <= i < |treks| ==> Complete(treks[i])
  }

  function CircuitNodes(env: Env, treks: seq<Trek>): (r: seq<Node>)
    ensures |r| == |treks| && forall i :: 0 <= i < |treks| ==> r[i] == CircuitNode(env, treks[i])
  {
    seq(|treks|, i requires 0 <= i < |treks| => CircuitNode(env, treks[i]))
  }

  lemma {:induction false} CircuitNodesSnoc(env: Env, treks: seq<Trek>, i: int)
    requires 0 <= i < |treks|
    ensures CircuitNodes(env, treks[..i + 1]) == CircuitNodes(env, treks[..i]) + [CircuitNode(env, treks[i])]
  {
    var longer := CircuitNodes(env, treks[..i + 1]);
    var shorter := CircuitNodes(env, treks[..i]);
    forall j | 0 <= j < i ensures longer[j] == shorter[j] {
      assert treks[..i + 1][j] == treks[..i][j];
    }
    SeqSnoc(longer, shorter, CircuitNode(env, treks[i]));
  }

  lemma {:induction false} AllCompleteSnoc(treks: seq<Trek>, i: int)
    requires 0 <= i < |treks| && AllComplete(treks[..i]) && Complete(treks[i])
    ensures AllComplete(treks[..i + 1])
  {
    var longer := treks[..i + 1];
    forall j | 0 <= j < |longer| ensures Complete(longer[j]) {
      if j < i {
        assert longer[j] == treks[..i][j];
      }
    }
  }

  /** The position of the first trek with a POI without a type, or |treks|. */
  function FirstIncomplete(treks: seq<Trek>): (k: nat)
    ensures k <= |treks| && AllComplete(treks[..k])
    ensures k < |treks| ==> !Complete(treks[k])
    ensures AllComplete(treks) <==> k == |treks|
    decreases |treks|
  {
    if treks == [] then 0
    else if !Complete(treks[0]) then 0
    else
      var k := 1 + FirstIncomplete(treks[1..]);
      assert forall i :: 1 <= i < k ==> treks[..k][i] == treks[1..][..k - 1][i - 1];
      k
  }

  lemma {:induction false} FirstIncompleteAt(treks: seq<Trek>, i: int)
    requires 0 <= i < |treks| && AllComplete(treks[..i]) && !Complete(treks[i])
    ensures FirstIncomplete(treks) == i
    decreases i
  {
    if i > 0 {
      assert Complete(treks[..i][0]);
      var rest := treks[1..];
      var short := rest[..i - 1];
      forall j | 0 <= j < |short| ensures Complete(short[j]) {
        assert short[j] == treks[..i][j + 1];
      }
      FirstIncompleteAt(rest, i - 1);
    }
  }

  /** What the trek loop writes: every circuit up to the first incomplete one, then that one cut short. */
  function CircuitsOutput(env: Env, treks: seq<Trek>): seq<Event>
  {
    var k := FirstIncomplete(treks);
    EmitAll(CircuitNodes(env, treks[..k])) + (if k < |treks| then CircuitOutput(env, treks[k]) else [])
  }

  lemma {:induction false} CircuitsOutputCut(env: Env, treks: seq<Trek>, i: int)
    requires 0 <= i < |treks| && AllComplete(treks[..i]) && !Complete(treks[i])
    ensures CircuitsOutput(env, treks) == EmitAll(CircuitNodes(env, treks[..i])) + CircuitOutput(env, treks[i])
  {
    FirstIncompleteAt(treks, i);
  }

  lemma {:induction false} CircuitsOutputAll(env: Env, treks: seq<Trek>)
    requires AllComplete(treks)
    ensures CircuitsOutput(env, treks) == EmitAll(CircuitNodes(env, treks))
  {
    assert treks[..|treks|] == treks;
  }

  /** Everything serialize(treks) writes to the stream. */
  function TrekFeedOutput(env: Env, treks: seq<Trek>): seq<Event>
  {
    [Prolog] + TrekFeedBody(env, treks)
  }

  function TrekFeedBody(env: Env, treks: seq<Trek>): seq<Event>
  {
    [Start("circuits", Version2)] + CircuitsOutput(env, treks) + (if AllComplete(treks) then [End("circuits")] else [])
  }

  lemma {:induction false} TrekFeedAssembly(env: Env, treks: seq<Trek>, evs: seq<Event>)
    requires evs == [Prolog] + [Start("circuits", Version2)] + CircuitsOutput(env, treks)
    ensures AllComplete(treks) ==> evs + [End("circuits")] == TrekFeedOutput(env, treks)
    ensures !AllComplete(treks) ==> evs == TrekFeedOutput(env, treks)
  {
    var out := CircuitsOutput(env, treks);
    var tail: seq<Event> := if AllComplete(treks) then [End("circuits")] else [];
    assert TrekFeedBody(env, treks) == [Start("circuits", Version2)] + out + tail;
    EventsAssoc([Prolog], [Start("circuits", Version2)], out, tail);
  }

  /** The document serialize(treks) writes when it completes. */
  function TrekDocument(env: Env, treks: seq<Trek>): Node
  {
    Element("circuits", Version2, CircuitNodes(env, treks))
  }

  /** A completed feed is the declaration and one `<circuits version="2">` tree, and reads back as it. */
  lemma {:induction false} TrekFeedComplete(env: Env, treks: seq<Trek>)
    requires AllComplete(treks)
    ensures TrekFeedOutput(env, treks) == [Prolog] + Emit(TrekDocument(env, treks))
    ensures WellFormedDocument(TrekFeedOutput(env, treks))
    ensures Parse(TrekFeedOutput(env, treks)[1..]) == Some([TrekDocument(env, treks)])
  {
    CircuitsOutputAll(env, treks);
    var body := EmitAll(CircuitNodes(env, treks));
    assert TrekFeedBody(env, treks) == [Start("circuits", Version2)] + body + [End("circuits")];
    EmitElement("circuits", Version2, CircuitNodes(env, treks));
    EmitAllOne(TrekDocument(env, treks));
    DocumentOfRoot(TrekDocument(env, treks));
  }

  /** Cut short by a POI without a type, the feed leaves circuits, circuit, pois and that poi open. */
  lemma {:induction false} TrekFeedCut(env: Env, treks: seq<Trek>)
    requires !AllComplete(treks)
    ensures Nest(TrekFeedOutput(env, treks)[1..], []) == Some(["circuits", "circuit", "pois", "poi"])
  {
    var k := FirstIncomplete(treks);
    var t := treks[k];
    var pois := EmbeddedPois(env, t);
    EmbeddedPoisTyped(env, t);
    var m := FirstUntyped(pois);
    PoisOutputCut(env, pois, m);
    CircuitsOutputCut(env, treks, k);
    assert TrekFeedOutput(env, treks)[1..] == TrekFeedBody(env, treks);
    NestFourOpen("circuits", Version2, CircuitNodes(env, treks[..k]),
      "circuit", TrekHeader(t), LocalizedNodes(env, t, t.publishedLangs), [TraceNode(env, t)],
      "pois", map[], PoiNodes(env, pois[..m]), "poi", PoiHeader(pois[m]),
      PoisOutput(env, pois), CircuitOutput(env, t), CircuitsOutput(env, treks), TrekFeedBody(env, treks));
  }

  /** The circuits feed is a complete document exactly when no embedded POI lacks a type. */
  lemma {:induction false} TrekFeedWellFormed(env: Env, treks: seq<Trek>)
    ensures WellFormedDocument(TrekFeedOutput(env, treks)) <==> AllComplete(treks)
  {
    if AllComplete(treks) {
      TrekFeedComplete(env, treks);
    } else {
      TrekFeedCut(env, treks);
    }
  }

  /** The supplementary blocks of the eight fields, one field after the other. */
  lemma {:induction false} InfoNodesEight(env: Env, t: Trek, lang: Lang)
    ensures InfoNodes(env, t, InfoFields, lang) ==
      [] + AdditionalInfoNodes(env, t, Departure, lang) + AdditionalInfoNodes(env, t, Arrival, lang) +
      AdditionalInfoNodes(env, t, Ambiance, lang) + AdditionalInfoNodes(env, t, Access, lang) +
      AdditionalInfoNodes(env, t, DisabledInfrastructure, lang) + AdditionalInfoNodes(env, t, AdvisedParking, lang) +
      AdditionalInfoNodes(env, t, PublicTransport, lang) + AdditionalInfoNodes(env, t, Advice, lang)
  {
    InfoNodesPrefixes(env, t, lang);
    assert InfoFields[..8] == InfoFields;
  }

  lemma {:induction false} InfoNodesPrefixes(env: Env, t: Trek, lang: Lang)
    ensures InfoNodes(env, t, InfoFields[..8], lang) ==
      [] + AdditionalInfoNodes(env, t, Departure, lang) + AdditionalInfoNodes(env, t, Arrival, lang) +
      AdditionalInfoNodes(env, t, Ambiance, lang) + AdditionalInfoNodes(env, t, Access, lang) +
      AdditionalInfoNodes(env, t, DisabledInfrastructure, lang) + AdditionalInfoNodes(env, t, AdvisedParking, lang) +
      AdditionalInfoNodes(env, t, PublicTransport, lang) + AdditionalInfoNodes(env, t, Advice, lang)
  {
    assert InfoNodes(env, t, InfoFields[..0], lang) == [];
    InfoNodesSnoc(env, t, InfoFields, lang, 0);
    InfoNodesSnoc(env, t, InfoFields, lang, 1);
    InfoNodesSnoc(env, t, InfoFields, lang, 2);
    InfoNodesSnoc(env, t, InfoFields, lang, 3);
    InfoNodesSnoc(env, t, InfoFields, lang, 4);
    InfoNodesSnoc(env, t, InfoFields, lang, 5);
    InfoNodesSnoc(env, t, InfoFields, lang, 6);
    InfoNodesSnoc(env, t, InfoFields, lang, 7);
  }

  /** The events of an `<informations_complementaires>` block once all eight fields are written. */
  lemma {:induction false} InfoBlockDone(env: Env, t: Trek, lang: Lang, before: seq<Event>, done: seq<Node>, evs: seq<Event>)
    requires done ==
      [] + AdditionalInfoNodes(env, t, Departure, lang) + AdditionalInfoNodes(env, t, Arrival, lang) +
      AdditionalInfoNodes(env, t, Ambiance, lang) + AdditionalInfoNodes(env, t, Access, lang) +
      AdditionalInfoNodes(env, t, DisabledInfrastructure, lang) + AdditionalInfoNodes(env, t, AdvisedParking, lang) +
      AdditionalInfoNodes(env, t, PublicTransport, lang) + AdditionalInfoNodes(env, t, Advice, lang)
    requires evs == before + [Start("informations_complementaires", map[])] + EmitAll(done) + [End("informations_complementaires")]
    ensures evs == before + EmitAll([InfoComplementairesNode(env, t, lang)])
  {
    InfoNodesEight(env, t, lang);
    EmitWrapped(before, "informations_complementaires", map[], done);
  }

  lemma {:induction false} TypedEmbedded(env: Env, t: Trek, ok: bool)
    requires ok == AllTyped(EmbeddedPois(env, t))
    ensures ok == Complete(t)
  {
    EmbeddedPoisTyped(env, t);
  }

  /** The events of a circuit written to the end. */
  lemma {:induction false} CircuitOutputDone(env: Env, t: Trek, before: seq<Event>, evs: seq<Event>)
    requires Complete(t)
    requires evs == before + [Start("circuit", TrekHeader(t))] + EmitAll(LocalizedNodes(env, t, t.publishedLangs)) +
      EmitAll([TraceNode(env, t)]) + EmitAll(EmbeddedPoisNodes(env, t)) + [End("circuit")]
    ensures evs == before + CircuitOutput(env, t)
  {
    var start := before + [Start("circuit", TrekHeader(t))];
    var localized := LocalizedNodes(env, t, t.publishedLangs);
    EmitPair(start, localized, [TraceNode(env, t)]);
    EmitPair(start, localized + [TraceNode(env, t)], EmbeddedPoisNodes(env, t));
    EmitWrapped(before, "circuit", TrekHeader(t), localized + [TraceNode(env, t)] + EmbeddedPoisNodes(env, t));
  }

  /** The events of a circuit cut short inside its POIs. */
  lemma {:induction false} CircuitOutputCut(env: Env, t: Trek, before: seq<Event>, evs: seq<Event>)
    requires !Complete(t)
    requires evs == before + [Start("circuit", TrekHeader(t))] + EmitAll(LocalizedNodes(env, t, t.publishedLangs)) +
      EmitAll([TraceNode(env, t)]) + ([Start("pois", map[])] + PoisOutput(env, EmbeddedPois(env, t)))
    ensures evs == before + CircuitOutput(env, t)
  {
    var a := [Start("circuit", TrekHeader(t))];
    var b := EmitAll(LocalizedNodes(env, t, t.publishedLangs));
    var c := EmitAll([TraceNode(env, t)]);
    var d := [Start("pois", map[])];
    var e := PoisOutput(env, EmbeddedPois(env, t));
    Regroup5(before, a, b, c, d, e);
  }

  lemma {:induction false} Regroup5<T>(before: seq<T>, a: seq<T>, b: seq<T>, c: seq<T>, d: seq<T>, e: seq<T>)
    ensures before + a + b + c + (d + e) == before + (a + b + c + d + e)
  {
  }

  lemma {:induction false} OpenCircuit(before: seq<string>, open: seq<string>)
    requires open == before + ["circuit"] + ["pois", "poi"]
    ensures open == before + ["circuit", "pois", "poi"]
  {
  }

  /** One complete circuit more. */
  lemma {:induction false} CircuitsStep(env: Env, treks: seq<Trek>, i: int, before: seq<Event>, evs: seq<Event>)
    requires 0 <= i < |treks| && Complete(treks[i])
    requires evs == before + EmitAll(CircuitNodes(env, treks[..i])) + CircuitOutput(env, treks[i])
    ensures evs == before + EmitAll(CircuitNodes(env, treks[..i + 1]))
  {
    CircuitNodesSnoc(env, treks, i);
    EmitSnoc(before, CircuitNodes(env, treks[..i]), CircuitNode(env, treks[i]));
  }

  // ----- properties of a circuit ----------------------------------------

  /** `<distance>` holds the truncated length as decimal digits, and is left out when that is 0. */
  lemma {:induction false} DistanceField(env: Env, t: Trek)
    ensures DistanceNodes(env, t) ==
      if Trunc(t.length) == 0 then [] else [Element("distance", map[], [CharData(IntToString(Trunc(t.length)))])]
  {
    NoMarkupInIntegers(Trunc(t.length));
  }

  /** The distance field is the only child named `distance` it writes, and its only child. */
  lemma {:induction false} DistanceNamed(env: Env, t: Trek, name: string)
    ensures Named(DistanceNodes(env, t), name) == if name == "distance" then DistanceNodes(env, t) else []
  {
    var d := DistanceNodes(env, t);
    if d != [] {
      NamedOne(d[0], name);
      assert d == [d[0]];
    }
  }

  lemma {:induction false} LocomotionNamed(env: Env, t: Trek, name: string)
    requires name != "locomotions"
    ensures Named(LocomotionNodes(env, t), name) == []
  {
    var l := LocomotionNodes(env, t);
    if l != [] {
      NamedOne(l[0], name);
      assert l == [l[0]];
    }
  }

  /** One turn of the language loop holds one `<informations>`, then the distance, then the locomotions. */
  lemma {:induction false} LanguageNamed(env: Env, t: Trek, lang: Lang, name: string)
    requires name != "locomotions"
    ensures Named(LanguageNodes(env, t, lang), name) ==
      (if name == "informations" then [TrekInformationNode(env, t, lang)] else []) +
      (if name == "distance" then DistanceNodes(env, t) else [])
  {
    var info := TrekInformationNode(env, t, lang);
    Named3([info], DistanceNodes(env, t), LocomotionNodes(env, t), name);
    NamedOne(info, name);
    DistanceNamed(env, t, name);
    LocomotionNamed(env, t, name);
  }

  /** One `<informations>` per language of `langs`, in order. */
  function InformationNodes(env: Env, t: Trek, langs: seq<Lang>): (r: seq<Node>)
    ensures |r| == |langs| && forall i :: 0 <= i < |langs| ==> r[i] == TrekInformationNode(env, t, langs[i])
  {
    seq(|langs|, i requires 0 <= i < |langs| => TrekInformationNode(env, t, langs[i]))
  }

  lemma {:induction false} InformationNodesSnoc(env: Env, t: Trek, langs: seq<Lang>)
    requires langs != []
    ensures InformationNodes(env, t, langs) ==
      InformationNodes(env, t, langs[..|langs| - 1]) + [TrekInformationNode(env, t, langs[|langs| - 1])]
  {
    var init := langs[..|langs| - 1];
    var longer := InformationNodes(env, t, langs);
    var shorter := InformationNodes(env, t, init);
    forall j | 0 <= j < |init| ensures longer[j] == shorter[j] {
      assert init[j] == langs[j];
    }
    SeqSnoc(longer, shorter, TrekInformationNode(env, t, langs[|langs| - 1]));
  }

  /** Over the language loop: one `<informations>` per language, in the order of `langs`. */
  lemma {:induction false} LocalizedInformations(env: Env, t: Trek, langs: seq<Lang>)
    ensures Named(LocalizedNodes(env, t, langs), "informations") == InformationNodes(env, t, langs)
    decreases |langs|
  {
    if langs != [] {
      var init := langs[..|langs| - 1];
      LocalizedInformations(env, t, init);
      LanguageNamed(env, t, langs[|langs| - 1], "informations");
      NamedAppend(LocalizedNodes(env, t, init), LanguageNodes(env, t, langs[|langs| - 1]), "informations");
      InformationNodesSnoc(env, t, langs);
    }
  }

  /** Over the language loop: the distance field once per language. */
  lemma {:induction false} LocalizedDistances(env: Env, t: Trek, langs: seq<Lang>)
    ensures Named(LocalizedNodes(env, t, langs), "distance") == Repeat(DistanceNodes(env, t), |langs|)
    decreases |langs|
  {
    if langs != [] {
      var init := langs[..|langs| - 1];
      var d := DistanceNodes(env, t);
      LocalizedDistances(env, t, init);
      LanguageNamed(env, t, langs[|langs| - 1], "distance");
      NamedAppend(LocalizedNodes(env, t, init), LanguageNodes(env, t, langs[|langs| - 1]), "distance");
      assert Named(LanguageNodes(env, t, langs[|langs| - 1]), "distance") == d;
      assert Repeat(d, |langs|) == Repeat(d, |init|) + d;
    }
  }

  /** Over the language loop: no child with a name other than those three. */
  lemma {:induction false} LocalizedOther(env: Env, t: Trek, langs: seq<Lang>, name: string)
    requires name != "informations" && name != "distance" && name != "locomotions"
    ensures Named(LocalizedNodes(env, t, langs), name) == []
    decreases |langs|
  {
    if langs != [] {
      var init := langs[..|langs| - 1];
      LocalizedOther(env, t, init, name);
      LanguageNamed(env, t, langs[|langs| - 1], name);
      NamedAppend(LocalizedNodes(env, t, init), LanguageNodes(env, t, langs[|langs| - 1]), name);
    }
  }

  /** `n` copies of `s`, one after the other. */
  function Repeat<T>(s: seq<T>, n: nat): seq<T>
  {
    if n == 0 then [] else Repeat(s, n - 1) + s
  }

  /** The `<pois>` block is the only child it writes, and is named `pois`. */
  lemma {:induction false} EmbeddedPoisNamed(env: Env, t: Trek, name: string)
    ensures Named(EmbeddedPoisNodes(env, t), name) == if name == "pois" then EmbeddedPoisNodes(env, t) else []
  {
    if t.publishedPois != [] {
      NamedOne(EmbeddedPoisNodes(env, t)[0], name);
    }
  }

  /** The children of a `<circuit>` with a given name: from the language loop, then the trace, then the `<pois>` block. */
  lemma {:induction false} CircuitNamed(env: Env, t: Trek, name: string)
    ensures Named(CircuitNode(env, t).kids, name) ==
      Named(LocalizedNodes(env, t, t.publishedLangs), name) +
      (if name == "trace" then [TraceNode(env, t)] else []) +
      (if name == "pois" then EmbeddedPoisNodes(env, t) else [])
  {
    var trace := TraceNode(env, t);
    Named3(LocalizedNodes(env, t, t.publishedLangs), [trace], EmbeddedPoisNodes(env, t), name);
    NamedOne(trace, name);
    EmbeddedPoisNamed(env, t, name);
  }

  /**
   * A `<circuit>` holds exactly one `<trace>`, right after the language loop's
   * children, and the `<pois>` block, when there is one, is its last child, after the trace.
   */
  lemma {:induction false} CircuitOrder(env: Env, t: Trek)
    ensures Named(CircuitNode(env, t).kids, "trace") == [TraceNode(env, t)]
    ensures var kids := CircuitNode(env, t).kids;
      var k := |LocalizedNodes(env, t, t.publishedLangs)|;
      k < |kids| && kids[k] == TraceNode(env, t) &&
      (t.publishedPois == [] ==> |kids| == k + 1) &&
      (t.publishedPois != [] ==> |kids| == k + 2 && kids[k + 1].Element? && kids[k + 1].name == "pois")
  {
    CircuitNamed(env, t, "trace");
    LocalizedOther(env, t, t.publishedLangs, "trace");
  }

  /** Inside a `<circuit>`: one `<informations>` per published language, in order. */
  lemma {:induction false} CircuitLanguages(env: Env, t: Trek)
    ensures Named(CircuitNode(env, t).kids, "informations") == InformationNodes(env, t, t.publishedLangs)
  {
    CircuitNamed(env, t, "informations");
    LocalizedInformations(env, t, t.publishedLangs);
  }

  /** Inside a `<circuit>`: the distance field once per published language. */
  lemma {:induction false} CircuitDistances(env: Env, t: Trek)
    ensures Named(CircuitNode(env, t).kids, "distance") == Repeat(DistanceNodes(env, t), |t.publishedLangs|)
  {
    CircuitNamed(env, t, "distance");
    LocalizedDistances(env, t, t.publishedLangs);
  }

  /** Each `<informations>` of a circuit is labelled with its language, in the order of the published languages. */
  lemma {:induction false} CircuitLanguageLabels(env: Env, t: Trek)
    ensures var infos := Named(CircuitNode(env, t).kids, "informations");
      |infos| == |t.publishedLangs| &&
      forall i :: 0 <= i < |infos| ==> infos[i].Element? && infos[i].attrs == map["language" := t.publishedLangs[i]]
  {
    CircuitLanguages(env, t);
  }

  /**
   * Inside a `<circuit>`: a `<pois>` block exactly when the trek has
   * published POIs, holding one `<poi>` per POI in order, each reprojected.
   */
  lemma {:induction false} CircuitPois(env: Env, t: Trek)
    ensures var blocks := Named(CircuitNode(env, t).kids, "pois");
      (blocks == [] <==> t.publishedPois == []) && |blocks| <= 1 &&
      (blocks != [] ==>
        |blocks[0].kids| == |t.publishedPois| &&
        forall i :: 0 <= i < |t.publishedPois| ==> blocks[0].kids[i] == PoiNode(env, EmbeddedPois(env, t)[i]))
  {
    CircuitNamed(env, t, "pois");
    LocalizedOther(env, t, t.publishedLangs, "pois");
    EmbeddedPoisTyped(env, t);
  }

  /**
   * An embedded POI's address is the one its own feed gives it: the address
   * reprojects again a point the query already put in WGS84, which changes nothing.
   */
  lemma {:induction false} EmbeddedAddress(env: Env, t: Trek, i: int)
    requires 0 <= i < |t.publishedPois|
    ensures |EmbeddedPois(env, t)| == |t.publishedPois|
    ensures AddressNode(env, EmbeddedPois(env, t)[i]) == AddressNode(env, t.publishedPois[i])
  {
  }

  /**
   * Every `<circuit>` carries its key and the truncated epoch seconds of its
   * two dates, one per trek in input order.
   */
  lemma {:induction false} CircuitIdentity(env: Env, treks: seq<Trek>, i: int)
    requires 0 <= i < |treks|
    ensures |TrekDocument(env, treks).kids| == |treks|
    ensures var n := TrekDocument(env, treks).kids[i];
      n.Element? && n.name == "circuit" &&
      ParseInt(n.attrs["id_circuit"]) == Some(treks[i].pk) &&
      ParseInt(n.attrs["date_creation"]) == Some(Trunc(treks[i].dateInsert)) &&
      ParseInt(n.attrs["date_modification"]) == Some(Trunc(treks[i].dateUpdate))
  {
    IntToStringRoundTrip(treks[i].pk);
  }

  /** A length of 1234.7 becomes `<distance>1234</distance>`: truncated, not rounded. */
  lemma {:induction false} DistanceExample(env: Env, t: Trek)
    requires t.length == 1234.7
    ensures DistanceNodes(env, t) == [Element("distance", map[], [CharData("1234")])]
  {
    assert Trunc(t.length) == 1234;
    assert NatToString(1) == "1";
    assert NatToString(12) == NatToString(1) + ['2'] == "12";
    assert NatToString(123) == NatToString(12) + ['3'] == "123";
    assert NatToString(1234) == NatToString(123) + ['4'] == "1234";
    DistanceField(env, t);
  }

  /**
   * A 2.5-hour trek of difficulty level 3 whose practice is Cirkwi's
   * "Hiking" (id 7) gets one locomotion with all four attributes.
   */
  lemma {:induction false} LocomotionExample(env: Env, t: Trek)
    requires t.practice == Some(Practice(Some(CirkwiLocomotion(7, "Hiking"))))
    requires t.difficulty.Some? && t.difficulty.value.cirkwiLevel == Some(3)
    requires t.duration == Some(2.5)
    ensures LocomotionNodes(env, t) ==
      [Element("locomotions", map[],
        [Element("locomotion", map["type" := "Hiking", "id_locomotion" := "7", "difficulte" := "3", "duree" := "150"],
          [CharData("")])])]
  {
    assert Trunc(2.5 * 60.0) == 150;
    assert NatToString(1) == "1" && NatToString(3) == "3" && NatToString(7) == "7";
    assert NatToString(15) == NatToString(1) + ['5'] == "15";
    assert NatToString(150) == NatToString(15) + ['0'] == "150";
    assert PracticeAttrs(t) == map["type" := "Hiking", "id_locomotion" := "7"];
    assert WithLevel(t, PracticeAttrs(t)) == map["type" := "Hiking", "id_locomotion" := "7", "difficulte" := "3"];
    assert LocomotionAttrs(t) == map["type" := "Hiking", "id_locomotion" := "7", "difficulte" := "3", "duree" := "150"];
    LocomotionShape(env, t);
  }

  /**
   * CirkwiTrekSerializer: a CirkwiPOISerializer (whose field, media and POI
   * writers it reuses) with the trek blocks added.
   */
  class TrekSerializer {
    const base: PoiSerializer
    const xml: XmlWriter := base.xml
    const env: Env := base.env
    const translation: Translation := base.translation

    constructor (env: Env, translation: Translation)
      ensures this.env == env && this.translation == translation
      ensures fresh(xml) && xml.events == [] && xml.open == []
    {
      base := new PoiSerializer(env, translation);
    }

    /** serialize_additionnal_info: the field read in the active language, skipped when empty. */
    method SerializeAdditionalInfo(t: Trek, f: InfoField)
      requires xml.Valid() && xml.open != []
      modifies xml
      ensures xml.Valid() && xml.open == old(xml.open)
      ensures xml.events == old(xml.events) + EmitAll(AdditionalInfoNodes(env, t, f, translation.language))
    {
      var value := Info(t, f)(translation.language);
      if value == "" {
        return;
      }
      value := env.plainText(value);
      ghost var title := FieldNodes(env, "titre", Text(env.verboseName(f, translation.language)), map[]);
      ghost var description := FieldNodes(env, "description", Text(value), map[]);
      DropLast(xml.open, "information_complementaire");
      xml.StartElement("information_complementaire", map[]);
      ghost var afterStart := xml.events;
      base.SerializeField("titre", Text(env.verboseName(f, translation.language)), map[]);
      base.SerializeField("description", Text(value), map[]);
      EmitPair(afterStart, title, description);
      xml.EndElement("information_complementaire");
      EmitWrapped(old(xml.events), "information_complementaire", map[], title + description);
    }

    /** One serialize_additionnal_info call of the block, after the calls that wrote `done`. */
    method SerializeNextInfo(ghost start: seq<Event>, ghost done: seq<Node>, t: Trek, f: InfoField) returns (ghost next: seq<Node>)
      requires xml.Valid() && xml.open != [] && xml.events == start + EmitAll(done)
      modifies xml
      ensures xml.Valid() && xml.open == old(xml.open)
      ensures next == done + AdditionalInfoNodes(env, t, f, translation.language)
      ensures xml.events == start + EmitAll(next)
    {
      SerializeAdditionalInfo(t, f);
      next := done + AdditionalInfoNodes(env, t, f, translation.language);
      EmitPair(start, done, AdditionalInfoNodes(env, t, f, translation.language));
    }

    /** The calls for departure, arrival, ambiance and access. */
    method SerializeFirstInfos(ghost start: seq<Event>, t: Trek) returns (ghost done: seq<Node>)
      requires xml.Valid() && xml.open != [] && xml.events == start
      modifies xml
      ensures xml.Valid() && xml.open == old(xml.open)
      ensures done == [] + AdditionalInfoNodes(env, t, Departure, translation.language) + AdditionalInfoNodes(env, t, Arrival, translation.language) +
        AdditionalInfoNodes(env, t, Ambiance, translation.language) + AdditionalInfoNodes(env, t, Access, translation.language)
      ensures xml.events == start + EmitAll(done)
    {
      done := SerializeNextInfo(start, [], t, Departure);
      done := SerializeNextInfo(start, done, t, Arrival);
      done := SerializeNextInfo(start, done, t, Ambiance);
      done := SerializeNextInfo(start, done, t, Access);
    }

    /** The calls for disabled_infrastructure, advised_parking, public_transport and advice. */
    method SerializeLastInfos(ghost start: seq<Event>, ghost first: seq<Node>, t: Trek) returns (ghost done: seq<Node>)
      requires xml.Valid() && xml.open != [] && xml.events == start + EmitAll(first)
      modifies xml
      ensures xml.Valid() && xml.open == old(xml.open)
      ensures done == first + AdditionalInfoNodes(env, t, DisabledInfrastructure, translation.language) + AdditionalInfoNodes(env, t, AdvisedParking, translation.language) +
        AdditionalInfoNodes(env, t, PublicTransport, translation.language) + AdditionalInfoNodes(env, t, Advice, translation.language)
      ensures xml.events == start + EmitAll(done)
    {
      done := SerializeNextInfo(start, first, t, DisabledInfrastructure);
      done := SerializeNextInfo(start, done, t, AdvisedParking);
      done := SerializeNextInfo(start, done, t, PublicTransport);
      done := SerializeNextInfo(start, done, t, Advice);
    }

    /** The `<informations_complementaires>` block: the eight fields, one call each, in their fixed order. */
    method SerializeInformationsComplementaires(t: Trek)
      requires xml.Valid() && xml.open != []
      modifies xml
      ensures xml.Valid() && xml.open == old(xml.open)
      ensures xml.events == old(xml.events) + EmitAll([InfoComplementairesNode(env, t, translation.language)])
    {
      DropLast(xml.open, "informations_complementaires");
      xml.StartElement("informations_complementaires", map[]);
      ghost var start := xml.events;
      assert xml.events == start + EmitAll([]);
      ghost var first := SerializeFirstInfos(start, t);
      ghost var done := SerializeLastInfos(start, first, t);
      xml.EndElement("informations_complementaires");
      InfoBlockDone(env, t, translation.language, old(xml.events), done, xml.events);
    }

    /** serialize_description: the teaser, extended by the description when both are set, or nothing. */
    method SerializeDescription(t: Trek)
      requires xml.Valid() && xml.open != []
      modifies xml
      ensures xml.Valid() && xml.open == old(xml.open)
      ensures xml.events == old(xml.events) + EmitAll(DescriptionNodes(env, t, translation.language))
    {
      var description := t.descriptionTeaser(translation.language);
      if description != "" && t.description(translation.language) != "" {
        description := description + "\n\n";
        description := description + t.description(translation.language);
      }
      if description != "" {
        base.SerializeField("description", Text(env.plainText(description)), map[]);
      }
    }

    /** serialize_tags: collect the tag ids, look the rows up, write one `<tag_public>` per row. */
    method SerializeTags(t: Trek)
      requires xml.Valid() && xml.open != []
      modifies xml
      ensures xml.Valid() && xml.open == old(xml.open)
      ensures xml.events == old(xml.events) + EmitAll([TagsNode(env, t)])
    {
      DropLast(xml.open, "tags_publics");
      xml.StartElement("tags_publics", map[]);
      ghost var start := xml.events;
      var tagIds := t.themeCirkwiIds;
      tagIds := tagIds + t.accessibilityCirkwiIds;
      if t.difficulty.Some? && t.difficulty.value.cirkwiId.Some? && t.difficulty.value.cirkwiId.value != 0 {
        tagIds := tagIds + [t.difficulty.value.cirkwiId];
      }
      assert tagIds == TagIds(t);
      var tags := TagLookup(env.cirkwiTags, tagIds);
      var i := 0;
      while i < |tags|
        invariant 0 <= i <= |tags|
        invariant xml.Valid() && xml.open == old(xml.open) + ["tags_publics"]
        invariant xml.events == start + EmitAll(TagNodes(tags[..i]))
      {
        var tag := tags[i];
        TagNodesSnoc(tags, i);
        TagField(env, tag);
        base.SerializeField("tag_public", Text(""), map["id" := IntToString(tag.eid), "nom" := tag.name]);
        EmitSnoc(start, TagNodes(tags[..i]), TagNode(tag));
        i := i + 1;
      }
      assert tags[..i] == tags;
      xml.EndElement("tags_publics");
      EmitWrapped(old(xml.events), "tags_publics", map[], TagNodes(tags));
    }

    /** serializable_locomotions: gather the attributes one by one; write the block only if there is one. */
    method SerializableLocomotions(t: Trek)
      requires xml.Valid() && xml.open != []
      modifies xml
      ensures xml.Valid() && xml.open == old(xml.open)
      ensures xml.events == old(xml.events) + EmitAll(LocomotionNodes(env, t))
    {
      var attrs := CollectLocomotionAttrs(t);
      if attrs != map[] {
        DropLast(xml.open, "locomotions");
        xml.StartElement("locomotions", map[]);
        base.SerializeField("locomotion", Text(""), attrs);
        xml.EndElement("locomotions");
        EmitWrapped(old(xml.events), "locomotions", map[], FieldNodes(env, "locomotion", Text(""), attrs));
      }
    }

    /** The first half of serializable_locomotions: the attribute dictionary, filled in step by step. */
    method CollectLocomotionAttrs(t: Trek) returns (attrs: map<string, string>)
      ensures attrs == LocomotionAttrs(t)
    {
      attrs := map[];
      if t.practice.Some? && t.practice.value.cirkwi.Some? {
        var locomotion := t.practice.value.cirkwi.value;
        attrs := attrs["type" := locomotion.name];
        attrs := attrs["id_locomotion" := IntToString(locomotion.eid)];
      }
      assert attrs == PracticeAttrs(t);
      if t.difficulty.Some? && t.difficulty.value.cirkwiLevel.Some? && t.difficulty.value.cirkwiLevel.value != 0 {
        attrs := attrs["difficulte" := IntToString(t.difficulty.value.cirkwiLevel.value)];
      }
      assert attrs == WithLevel(t, PracticeAttrs(t));
      if t.duration.Some? && t.duration.value != 0.0 {
        attrs := attrs["duree" := IntToString(Trunc(t.duration.value * 60.0))];
      }
      assert attrs == WithDuration(t, WithLevel(t, PracticeAttrs(t)));
    }

    /** The loop body of serialize_trace: one `<point>` with latitude, then longitude. */
    method SerializePoint(c: Coord)
      requires xml.Valid() && xml.open != []
      modifies xml
      ensures xml.Valid() && xml.open == old(xml.open)
      ensures xml.events == old(xml.events) + EmitAll([PointNode(env, c)])
    {
      DropLast(xml.open, "point");
      xml.StartElement("point", map[]);
      ghost var afterStart := xml.events;
      base.SerializeField("lat", Float(c.y), map[]);
      base.SerializeField("lng", Float(c.x), map[]);
      EmitPair(afterStart, FieldNodes(env, "lat", Float(c.y), map[]), FieldNodes(env, "lng", Float(c.x), map[]));
      xml.EndElement("point");
      EmitWrapped(old(xml.events), "point", map[], PositionNodes(env, c));
    }

    /** serialize_trace: `<trace>` with one `<point>` per vertex of the line in WGS84. */
    method SerializeTrace(t: Trek)
      requires xml.Valid() && xml.open != []
      modifies xml
      ensures xml.Valid() && xml.open == old(xml.open)
      ensures xml.events == old(xml.events) + EmitAll([TraceNode(env, t)])
    {
      DropLast(xml.open, "trace");
      xml.StartElement("trace", map[]);
      ghost var start := xml.events;
      var coords := TransformLine(env, t.geom, Wgs84).vertices;
      var i := 0;
      while i < |coords|
        invariant 0 <= i <= |coords|
        invariant xml.Valid() && xml.open == old(xml.open) + ["trace"]
        invariant xml.events == start + EmitAll(PointNodes(env, coords[..i]))
      {
        var c := coords[i];
        PointNodesSnoc(env, coords, i);
        SerializePoint(c);
        EmitSnoc(start, PointNodes(env, coords[..i]), PointNode(env, c));
        i := i + 1;
      }
      assert coords[..i] == coords;
      xml.EndElement("trace");
      EmitWrapped(old(xml.events), "trace", map[], PointNodes(env, coords));
    }

    /** The `<informations>` block for the active language (the first part of one turn of the language loop). */
    method SerializeTrekInformations(t: Trek)
      requires xml.Valid() && xml.open != []
      modifies xml
      ensures xml.Valid() && xml.open == old(xml.open)
      ensures xml.events == old(xml.events) + EmitAll([TrekInformationNode(env, t, translation.language)])
    {
      var lang := translation.language;
      ghost var title := FieldNodes(env, "titre", Text(t.name(lang)), map[]);
      ghost var description := DescriptionNodes(env, t, lang);
      ghost var medias := MediasNodes(env, t.pictures);
      ghost var extra := [InfoComplementairesNode(env, t, lang)];
      DropLast(xml.open, "informations");
      xml.StartElement("informations", map["language" := lang]);
      ghost var start := xml.events;
      base.SerializeField("titre", Text(t.name(translation.language)), map[]);
      SerializeDescription(t);
      EmitPair(start, title, description);
      base.SerializeMedias(t.pictures);
      EmitPair(start, title + description, medias);
      SerializeInformationsComplementaires(t);
      EmitPair(start, title + description + medias, extra);
      SerializeTags(t);
      EmitPair(start, title + description + medias + extra, [TagsNode(env, t)]);
      xml.EndElement("informations");
      EmitWrapped(old(xml.events), "informations", map["language" := lang], title + description + medias + extra + [TagsNode(env, t)]);
    }

    /** One turn of the language loop of serialize: the informations block, the distance and the locomotions. */
    method SerializeLanguage(t: Trek)
      requires xml.Valid() && xml.open != []
      modifies xml
      ensures xml.Valid() && xml.open == old(xml.open)
      ensures xml.events == old(xml.events) + EmitAll(LanguageNodes(env, t, translation.language))
    {
      ghost var info := [TrekInformationNode(env, t, translation.language)];
      SerializeTrekInformations(t);
      base.SerializeField("distance", Integer(Trunc(t.length)), map[]);
      EmitPair(old(xml.events), info, DistanceNodes(env, t));
      SerializableLocomotions(t);
      EmitPair(old(xml.events), info + DistanceNodes(env, t), LocomotionNodes(env, t));
    }

    /** The language loop of serialize, each turn with its language active; the previous language is restored. */
    method SerializeLanguages(t: Trek)
      requires xml.Valid() && xml.open != []
      modifies xml, translation
      ensures xml.Valid() && xml.open == old(xml.open)
      ensures xml.events == old(xml.events) + EmitAll(LocalizedNodes(env, t, t.publishedLangs))
      ensures translation.language == old(translation.language)
    {
      var origLang := translation.language;
      var j := 0;
      while j < |t.publishedLangs|
        invariant 0 <= j <= |t.publishedLangs|
        invariant xml.Valid() && xml.open == old(xml.open)
        invariant xml.events == old(xml.events) + EmitAll(LocalizedNodes(env, t, t.publishedLangs[..j]))
      {
        var lang := t.publishedLangs[j];
        LocalizedNodesSnoc(env, t, t.publishedLangs, j);
        translation.language := lang;
        SerializeLanguage(t);
        EmitPair(old(xml.events), LocalizedNodes(env, t, t.publishedLangs[..j]), LanguageNodes(env, t, lang));
        j := j + 1;
      }
      translation.language := origLang;
      assert t.publishedLangs[..j] == t.publishedLangs;
    }

    /** The `<pois>` block around serialize_pois. */
    method SerializePoisBlock(pois: seq<Poi>) returns (ok: bool)
      requires xml.Valid() && xml.open != []
      modifies xml, translation
      ensures xml.Valid() && ok == AllTyped(pois)
      ensures ok ==> xml.events == old(xml.events) + EmitAll([Element("pois", map[], PoiNodes(env, pois))]) && xml.open == old(xml.open)
      ensures !ok ==>
        xml.events == old(xml.events) + ([Start("pois", map[])] + PoisOutput(env, pois)) &&
        xml.open == old(xml.open) + ["pois", "poi"]
      ensures translation.language == old(translation.language)
    {
      DropLast(xml.open, "pois");
      xml.StartElement("pois", map[]);
      ok := base.SerializePois(pois);
      if !ok {
        Concat3(old(xml.events), [Start("pois", map[])], PoisOutput(env, pois));
        return;
      }
      xml.EndElement("pois");
      PoisOutputAll(env, pois);
      EmitWrapped(old(xml.events), "pois", map[], PoiNodes(env, pois));
    }

    /** The `<pois>` block of a circuit, written only when the trek has published POIs. */
    method SerializeEmbeddedPois(t: Trek) returns (ok: bool)
      requires xml.Valid() && xml.open != []
      modifies xml, translation
      ensures xml.Valid() && ok == Complete(t)
      ensures ok ==> xml.events == old(xml.events) + EmitAll(EmbeddedPoisNodes(env, t)) && xml.open == old(xml.open)
      ensures !ok ==>
        xml.events == old(xml.events) + ([Start("pois", map[])] + PoisOutput(env, EmbeddedPois(env, t))) &&
        xml.open == old(xml.open) + ["pois", "poi"]
      ensures translation.language == old(translation.language)
    {
      if t.publishedPois == [] {
        return true;
      }
      ok := SerializePoisBlock(ReprojectPois(env, t.publishedPois));
      TypedEmbedded(env, t, ok);
    }

    /**
     * The loop body of serialize for one trek. When an embedded POI has no
     * type, serialize_pois raises and `<circuit>`, `<pois>` and that `<poi>`
     * stay open (ok is false).
     */
    method SerializeCircuit(t: Trek) returns (ok: bool)
      requires xml.Valid() && xml.open != []
      modifies xml, translation
      ensures xml.Valid() && ok == Complete(t)
      ensures xml.events == old(xml.events) + CircuitOutput(env, t)
      ensures xml.open == if ok then old(xml.open) else old(xml.open) + ["circuit", "pois", "poi"]
      ensures translation.language == old(translation.language)
    {
      DropLast(xml.open, "circuit");
      xml.StartElement("circuit", TrekHeader(t));
      SerializeLanguages(t);
      SerializeTrace(t);
      ok := SerializeEmbeddedPois(t);
      if !ok {
        CircuitOutputCut(env, t, old(xml.events), xml.events);
        OpenCircuit(old(xml.open), xml.open);
        return;
      }
      xml.EndElement("circuit");
      CircuitOutputDone(env, t, old(xml.events), xml.events);
    }

    /** The trek loop of serialize: one `<circuit>` per trek, stopping inside the first incomplete one. */
    method SerializeCircuits(treks: seq<Trek>) returns (ok: bool)
      requires xml.Valid() && xml.open != []
      modifies xml, translation
      ensures xml.Valid() && ok == AllComplete(treks)
      ensures xml.events == old(xml.events) + CircuitsOutput(env, treks)
      ensures xml.open == if ok then old(xml.open) else old(xml.open) + ["circuit", "pois", "poi"]
      ensures translation.language == old(translation.language)
    {
      var i := 0;
      while i < |treks|
        invariant 0 <= i <= |treks| && AllComplete(treks[..i])
        invariant xml.Valid() && xml.open == old(xml.open)
        invariant xml.events == old(xml.events) + EmitAll(CircuitNodes(env, treks[..i]))
        invariant translation.language == old(translation.language)
      {
        ok := SerializeCircuit(treks[i]);
        if !ok {
          CircuitsOutputCut(env, treks, i);
          Concat3(old(xml.events), EmitAll(CircuitNodes(env, treks[..i])), CircuitOutput(env, treks[i]));
          return;
        }
        AllCompleteSnoc(treks, i);
        CircuitsStep(env, treks, i, old(xml.events), xml.events);
        i := i + 1;
      }
      assert treks[..i] == treks;
      CircuitsOutputAll(env, treks);
      return true;
    }

    /** serialize(treks): the declaration, then `<circuits version="2">` around the trek loop. */
    method Serialize(treks: seq<Trek>) returns (ok: bool)
      requires xml.events == [] && xml.open == []
      modifies xml, translation
      ensures ok == AllComplete(treks)
      ensures xml.events == TrekFeedOutput(env, treks)
      ensures ok ==> WellFormedDocument(xml.events)
      ensures translation.language == old(translation.language)
    {
      xml.StartDocument();
      xml.StartElement("circuits", Version2);
      ok := SerializeCircuits(treks);
      TrekFeedAssembly(env, treks, xml.events);
      if !ok {
        return;
      }
      xml.EndElement("circuits");
      xml.EndDocument();
    }
  }
}
