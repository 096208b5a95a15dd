# Cirkwi partner feeds of Geotrek, in Dafny

This project models the two XML feeds that Geotrek writes for the Cirkwi
tourism platform, and proves properties of them:

- the `<pois version="2">` feed of points of interest (`CirkwiPOISerializer`);
- the `<circuits version="2">` feed of treks (`CirkwiTrekSerializer`), which
  reuses the POI writer for the POIs embedded in each circuit.

Both serializers write through one streaming XML generator, call by call.
The model keeps that form:

- `Xml.XmlWriter` is a class whose `events` field (the SAX-like stream:
  declaration, start tags with attributes, character data, CDATA sections,
  end tags) and `open` field (the stack of open elements) every call extends.
- `Cirkwi.Translation` holds the process-wide active language. The
  serializers switch it per published language and set it back afterwards.
- `PoiFeed.PoiSerializer` and `TrekFeed.TrekSerializer` are the two
  serializers. The trek serializer holds a POI serializer over the same
  writer and language object, as the Python subclass shares `self.xml`.

Each serializer method is proved against a specification function. Its postcondition
says that the stream grows by exactly `EmitAll(ns)` for a list `ns` of XML
trees: for example `FieldNodes`, `MediasNodes`, `TagsNode`, `CircuitNode`.
The postcondition also gives the new open-element stack and the active
language. Separate lemmas then state, about those trees, what the feed
promises:

- when an element is skipped;
- when CDATA is used;
- the fixed order of elements;
- one `<informations>` per published language;
- latitude before longitude;
- truncation of distance, duration and timestamps.

`Xml.ParseForest` reads a stream back into trees, and `Xml.ParseRoundTrip`
proves it inverts `EmitAll`. So a completed feed is a well-formed document
that reads back as exactly the specified tree.

A few behaviours of the code are modelled as the code has them:

- **Missing POI type.** A POI with no type makes `serialize_pois` raise at
  `poi.type.cirkwi`, after its `<poi>` start tag is written. The model's
  `SerializePois`, `SerializeCircuit` and both `Serialize` methods return
  `ok == false` in that case. The events written up to that point are
  characterised exactly, and the elements left open are named.
  `PoiFeedWellFormed` and `TrekFeedWellFormed` prove that a feed is a
  well-formed document exactly when every POI has a type.
- **Description.** The description is written only when the teaser is
  non-empty; a description without a teaser is dropped (`DescriptionCases`).
- **Distance and locomotions.** `<distance>` and `<locomotions>` are written
  once per language, inside the language loop but after `</informations>`.
- **Falsy values.** A zero distance and a zero coordinate are falsy and so
  omitted, like an empty string.
- **Locale restore.** The active language is restored by a plain call after
  the loop, not in a `finally`. The only failure modelled, the missing POI
  type, is raised outside every language loop, so the language is restored
  on both paths.

Python `int()` on a float truncates toward zero (`Numbers.Trunc`), and
`str()` of an int is `Numbers.IntToString`. Datetimes are given as their
signed distance from the epoch in seconds.

## Model

| member | source | states |
|---|---|---|
| Numbers.Timestamp | geotrek/trekking/serializers.py:263-265 | the text reads back as the whole seconds since the epoch, truncated toward zero |
| Numbers.Trunc | geotrek/trekking/serializers.py:265 | `int()` of a float: the integer part, toward zero, for either sign |
| Numbers.IntToStringRoundTrip | geotrek/trekking/serializers.py:304 | `str` of any integer reads back as that integer |
| PoiFeed.Content | geotrek/trekking/serializers.py:279-282 | text is a CDATA section exactly when it contains `<`, `>` or `&`, and character data otherwise |
| PoiFeed.FieldNodes | geotrek/trekking/serializers.py:274-283 | nothing exactly when the value is falsy and there are no attributes; otherwise one element with that name and those attributes, holding the value as its single text child, CDATA exactly when it has markup |
| PoiFeed.PoiSerializer.SerializeField | geotrek/trekking/serializers.py:274-283 | appends exactly the events of `FieldNodes`; the open elements are unchanged |
| PoiFeed.NoMarkupInIntegers | geotrek/trekking/serializers.py:308 | a decimal integer never has markup, so it is written as character data |
| PoiFeed.MediasNodes | geotrek/trekking/serializers.py:285-297 | nothing exactly when there are no pictures; otherwise `medias` > `images` holding one `image` per picture, in order |
| PoiFeed.PoiSerializer.SerializeMedias | geotrek/trekking/serializers.py:285-297 | appends exactly the events of `MediasNodes` (loop over the pictures) |
| PoiFeed.CategoryNodes | geotrek/trekking/serializers.py:306-309 | no block when the type has no Cirkwi category; else `categories` > `categorie nom=name` with the category id as text |
| PoiFeed.PoiSerializer.SerializeCategories | geotrek/trekking/serializers.py:306-309 | appends exactly the events of `CategoryNodes` |
| PoiFeed.PoiSerializer.SerializePoiInformations | geotrek/trekking/serializers.py:310-318 | one `informations` block per published language, in order, each written with that language active; the active language afterwards is the one before |
| PoiFeed.PositionNodes | geotrek/trekking/serializers.py:321-323 | `lat` from the second coordinate first, then `lng` from the first; a zero coordinate is left out |
| PoiFeed.PoiSerializer.SerializeAddress | geotrek/trekking/serializers.py:319-325 | appends `adresse` > `position` with the point reprojected to WGS84 |
| PoiFeed.PoiSerializer.SerializePoi | geotrek/trekking/serializers.py:301-326 | for a POI with a type, appends exactly one `poi` tree: header, categories, languages, address; language restored |
| PoiFeed.FirstUntyped | geotrek/trekking/serializers.py:300-306 | the position of the first POI without a type (all before it are typed), or the length when every POI has one |
| PoiFeed.PoiSerializer.SerializePois | geotrek/trekking/serializers.py:299-326 | `ok` exactly when every POI has a type; appends every POI before the first untyped one, then only that one's start tag, which stays open; language restored |
| PoiFeed.PoiSerializer.Serialize | geotrek/trekking/serializers.py:328-333 | the whole stream is the declaration, `pois version=2` and `serialize_pois`, closed only when `ok`; when `ok` it is a well-formed document |
| PoiFeed.PoiFeedComplete | geotrek/trekking/serializers.py:328-333 | when every POI has a type, the feed is the declaration plus one `pois version=2` tree with one `poi` per input POI, and it parses back as that tree |
| PoiFeed.PoiFeedCut | geotrek/trekking/serializers.py:306 | when some POI lacks a type, the feed stops with `pois` and that `poi` open |
| PoiFeed.PoiFeedWellFormed | geotrek/trekking/serializers.py:328-333 | the feed is a well-formed document if and only if every POI has a type |
| PoiFeed.PoiIdentity | geotrek/trekking/serializers.py:301-305 | the i-th `poi` of the document carries the i-th POI's key and the truncated epoch seconds of its two dates |
| PoiFeed.PoiLanguages | geotrek/trekking/serializers.py:311-317 | the `informations` children of a `poi` are one per published language, in order, each labelled with its language |
| PoiFeed.PoiAddress | geotrek/trekking/serializers.py:319-325 | a `poi` has exactly one `adresse`, its last child |
| Cirkwi.TransformPoint | geotrek/trekking/serializers.py:321 | the result is in the target system; a point already there is unchanged, and any other has its coordinates reprojected from its own system to the target |
| Cirkwi.TransformLine | geotrek/trekking/serializers.py:348 | the result is in the target system with the same number of vertices, each reprojected in order, or the line unchanged when already there |
| Cirkwi.ReprojectPois | geotrek/trekking/serializers.py:423 | the same POIs in the same order, only their points reprojected |
| TrekFeed.PresentFields | geotrek/trekking/serializers.py:338-340 | the fields with a non-empty value, and no others |
| TrekFeed.TrekSerializer.SerializeAdditionalInfo | geotrek/trekking/serializers.py:337-345 | nothing for an empty field; else one `information_complementaire` with the field's label as `titre` and its plain-text value as `description` |
| TrekFeed.InfoNodesPresent | geotrek/trekking/serializers.py:337-345 | the supplementary blocks are exactly one per field that has a value, in the order of the fields |
| TrekFeed.PresentFieldsOrdered | geotrek/trekking/serializers.py:338-340 | skipping empty fields keeps the fields in order |
| TrekFeed.InfoFieldsOrdered | geotrek/trekking/serializers.py:406-413 | the fixed list names each of the eight fields once, in the order departure … advice |
| TrekFeed.InfoComplementairesContent | geotrek/trekking/serializers.py:405-414 | `informations_complementaires` holds one block per field with a value in the current language, and only those, in the fixed field order |
| TrekFeed.TrekSerializer.SerializeInformationsComplementaires | geotrek/trekking/serializers.py:405-414 | always opens and closes the block, with the eight calls between, in order |
| TrekFeed.DescriptionCases | geotrek/trekking/serializers.py:370-376 | empty teaser: no `description` at all; both set: teaser, blank line, description; description empty: the teaser alone |
| TrekFeed.TrekSerializer.SerializeDescription | geotrek/trekking/serializers.py:370-376 | appends exactly the events of the merged description's field |
| TrekFeed.TagLookup | geotrek/trekking/serializers.py:383 | the tag rows whose id is among the collected ids, and no others |
| TrekFeed.TagLookupOrder | geotrek/trekking/serializers.py:383 | the rows found keep the table's order |
| TrekFeed.TagField | geotrek/trekking/serializers.py:384 | a `tag_public` with its attributes is written even though its value is empty |
| TrekFeed.TagsListed | geotrek/trekking/serializers.py:378-386 | a row is listed if and only if its id is a theme's, an accessibility's or the difficulty's truthy tag id; one `tag_public` per row |
| TrekFeed.TrekSerializer.SerializeTags | geotrek/trekking/serializers.py:378-386 | builds the id list in place, then appends `tags_publics`, always present, with one `tag_public` per row found |
| TrekFeed.LocomotionType | geotrek/trekking/serializers.py:358-360 | `type` and `id_locomotion` are set exactly when the practice has a Cirkwi locomotion, to its name and id |
| TrekFeed.LocomotionDifficulty | geotrek/trekking/serializers.py:361-362 | `difficulte` is set exactly when the difficulty has a truthy level, to that level |
| TrekFeed.LocomotionDuration | geotrek/trekking/serializers.py:363-364 | `duree` is set exactly when the duration is truthy, to the hours times 60 truncated |
| TrekFeed.LocomotionKeys | geotrek/trekking/serializers.py:357-364 | no other attribute is set |
| TrekFeed.TrekSerializer.CollectLocomotionAttrs | geotrek/trekking/serializers.py:357-364 | the dictionary built step by step equals the specified attributes |
| TrekFeed.LocomotionShape | geotrek/trekking/serializers.py:365-368 | `locomotions` appears if and only if one of the three sources is truthy, and holds one empty `locomotion` with those attributes |
| TrekFeed.LocomotionExample | geotrek/trekking/serializers.py:356-368 | 2.5 hours, level 3, practice "Hiking" id 7: `type="Hiking" id_locomotion="7" difficulte="3" duree="150"` |
| TrekFeed.TrekSerializer.SerializableLocomotions | geotrek/trekking/serializers.py:356-368 | appends exactly the events of the locomotions block, or nothing |
| TrekFeed.TraceVertices | geotrek/trekking/serializers.py:347-354 | `trace` has one `point` per vertex, in order, each the reprojected vertex |
| TrekFeed.TrekSerializer.SerializePoint | geotrek/trekking/serializers.py:349-352 | appends one `point` with `lat` then `lng` |
| TrekFeed.TrekSerializer.SerializeTrace | geotrek/trekking/serializers.py:347-354 | appends `trace` with one `point` per vertex of the reprojected line (loop over the vertices) |
| TrekFeed.DistanceField | geotrek/trekking/serializers.py:417 | `distance` holds the truncated length in decimal, and is left out when that is 0 |
| TrekFeed.DistanceExample | geotrek/trekking/serializers.py:417 | a length of 1234.7 gives `<distance>1234</distance>` |
| TrekFeed.TrekSerializer.SerializeTrekInformations | geotrek/trekking/serializers.py:401-416 | appends one `informations language=L`: title, description, medias, supplementary block, tags |
| TrekFeed.TrekSerializer.SerializeLanguage | geotrek/trekking/serializers.py:400-418 | one turn of the language loop: `informations`, then `distance`, then `locomotions`, outside it |
| TrekFeed.LanguageNamed | geotrek/trekking/serializers.py:401-418 | one turn writes exactly one `informations` and the distance field, and nothing else but the locomotions |
| TrekFeed.TrekSerializer.SerializeLanguages | geotrek/trekking/serializers.py:398-419 | one turn per published language, in order, each with that language active; the active language afterwards is the one before |
| TrekFeed.LocalizedInformations | geotrek/trekking/serializers.py:399-416 | over the loop, the `informations` written are one per language, in order |
| TrekFeed.LocalizedDistances | geotrek/trekking/serializers.py:399-417 | over the loop, the distance field is written once per language |
| TrekFeed.LocalizedOther | geotrek/trekking/serializers.py:399-418 | the loop writes no element with any other name |
| TrekFeed.CircuitNamed | geotrek/trekking/serializers.py:393-425 | a circuit's children of a given name are those of the language loop, then the trace when the name is `trace`, then the `pois` block when the name is `pois` |
| TrekFeed.CircuitOrder | geotrek/trekking/serializers.py:398-425 | a `circuit` holds exactly one `trace`, right after the language loop's children, and the `pois` block, when there is one, is the last child, after the trace |
| TrekFeed.CircuitLanguages | geotrek/trekking/serializers.py:399-416 | the `informations` of a `circuit` are one per published language, in order |
| TrekFeed.CircuitLanguageLabels | geotrek/trekking/serializers.py:401 | the i-th `informations` of a `circuit` is labelled with the i-th published language |
| TrekFeed.CircuitDistances | geotrek/trekking/serializers.py:417 | a `circuit` holds the distance field once per published language |
| TrekFeed.EmbeddedPoisTyped | geotrek/trekking/serializers.py:423 | reprojecting the POIs keeps their number and their types |
| TrekFeed.CircuitPois | geotrek/trekking/serializers.py:421-424 | a `circuit` holds a `pois` block if and only if the trek has published POIs, with one `poi` per POI, in order |
| TrekFeed.EmbeddedAddress | geotrek/trekking/serializers.py:321-323 | an embedded POI's address equals the one the POI feed gives it: a second reprojection to WGS84 changes nothing |
| TrekFeed.TrekSerializer.SerializePoisBlock | geotrek/trekking/serializers.py:422-424 | `pois` around `serialize_pois`: closed when every POI has a type, else left open with the untyped `poi` |
| TrekFeed.TrekSerializer.SerializeEmbeddedPois | geotrek/trekking/serializers.py:421-424 | nothing without published POIs; else the `pois` block of the reprojected POIs; `ok` exactly when all have a type |
| TrekFeed.TrekSerializer.SerializeCircuit | geotrek/trekking/serializers.py:393-425 | appends the whole `circuit` when its POIs are typed; else stops with `circuit`, `pois` and `poi` open; language restored |
| TrekFeed.FirstIncomplete | geotrek/trekking/serializers.py:392-425 | the position of the first trek with a POI without a type, or the number of treks |
| TrekFeed.TrekSerializer.SerializeCircuits | geotrek/trekking/serializers.py:392-425 | appends one `circuit` per trek in order, up to the first incomplete one, which is cut short |
| TrekFeed.TrekSerializer.Serialize | geotrek/trekking/serializers.py:389-427 | the whole stream is the declaration, `circuits version=2` and the circuits, closed only when `ok`; `ok` exactly when every POI of every trek has a type; well-formed when `ok`; language restored |
| TrekFeed.TrekFeedComplete | geotrek/trekking/serializers.py:389-427 | a completed feed is the declaration and one `circuits version=2` tree with one `circuit` per trek, and parses back as that tree |
| TrekFeed.TrekFeedCut | geotrek/trekking/serializers.py:421-423 | cut short by an untyped POI, the feed leaves `circuits`, `circuit`, `pois` and `poi` open |
| TrekFeed.TrekFeedWellFormed | geotrek/trekking/serializers.py:389-427 | the feed is a well-formed document if and only if every POI of every trek has a type |
| TrekFeed.CircuitIdentity | geotrek/trekking/serializers.py:393-397 | the i-th `circuit` carries the i-th trek's key and the truncated epoch seconds of its two dates |

## Left out

- The XML generator's own byte output (entity escaping, encoding, the text of the XML declaration). It is modelled by the events it receives: `Start`, `Chars`, `CData`, `End`, `Prolog`.
- The XML generator does not check that `endElement` names the innermost open element. `XmlWriter.EndElement` requires it, and every call in the feed satisfies this.
- A CDATA section whose text contains `]]>` is not well-formed XML. Nothing here promises anything about that: a `CData` event carries the text as given.
- Attribute order within a start tag is not modelled: attributes are a map.
- Time zones in `timestamp`: datetimes are given as seconds from the epoch, already in UTC.
- Foreign calls are parameters of `Cirkwi.Env`: `plain_text`, `build_absolute_uri`, the label (`verbose_name`) of a field, `unicode()` of a float, coordinate reprojection, and the rows of the CirkwiTag table. `CirkwiTag.objects.filter` returns the rows in table order, as the database yields them; the model takes the table as a given sequence.
- Model translation is taken as given: a translated field is a function from the active language to its text.
- Exceptions other than the missing POI type, such as a failing foreign call or a write error, are not modelled. One raised inside a language loop would leave the active language switched, because the restore is not in a `finally`.
- The REST framework serializers, the GPX serializer and the URL configuration are not part of this model.
- The parking location and the reference points that the `# TODO` at geotrek/trekking/serializers.py:388 mentions are not written by the code, nor by the model.
- `PoiFeed.PoiSerializer.SerializeCategories` receives the POI type already known to be present. The dereference of a missing type is modelled one level up, in `SerializePois`.
- TrekFeed.LocomotionDuration: `duree` is the truncation of the exact product `duration × 60`, not of the product Python computes in double precision, which is rounded before `int()` truncates it. The two differ when that rounding crosses an integer: for the double nearest 0.7 Python writes 42, while the exact product truncates to 41. `LocomotionAttrs`, `CollectLocomotionAttrs`, `LocomotionShape` and `SerializableLocomotions` inherit this. Floats are otherwise modelled as the exact reals they denote, and `int()` of a stored float (`distance`, `timestamp`) involves no rounding.
- `Cirkwi.TransformLine`, `Cirkwi.TransformPoint`: reprojection is an opaque function of the source system, the target system and one coordinate pair.

A few behaviours of the code, modelled as the code has them, are worth naming:

- A guaranteed restore of the active language would need a `finally`; the code restores the language with a plain call after the loop.
- A description without a teaser is not written at all: the code tests the teaser before merging the two.
- A POI without a type does not merely lose its categories: the code raises at `poi.type.cirkwi`.
- The category id is not an attribute of `categorie`: the code writes it as the element's text, with the name as the `nom` attribute.
