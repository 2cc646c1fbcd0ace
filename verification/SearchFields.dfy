/** backend/search/fields.go: localized fields flattened into a search document and read back.

    A document is a map from field names to values; "title" in language "no" becomes "title_no". */
module SearchFields {
  import opened Runs
  import opened Text

  /** common.LocaleString: a nullable string per language code. */
  type LocaleString = map<string, Option<string>>

  /** A document value: a string, or anything else. */
  datatype Value = VStr(s: string) | VOther(n: int)

  type Document = map<string, Value>

  datatype SearchItem = SearchItem(
    id: string,
    plain: Document,
    title: LocaleString,
    description: LocaleString,
    showTitle: Option<LocaleString>,
    seasonTitle: Option<LocaleString>)

  datatype SearchHit = SearchHit(
    id: string, title: LocaleString, description: LocaleString, showTitle: LocaleString, seasonTitle: LocaleString)

  /** The fields that toSearchObject writes as they are, besides the id. */
  const PLAIN_FIELDS: set<string> := {
    "legacyID", "published", "type", "roles", "tags", "image", "header", "duration", "ageRating",
    "availableFrom", "availableTo", "publishedOn", "showID", "seasonID"
  }

  const ID := "objectID"
  const TITLE := "title"
  const DESCRIPTION := "description"
  const SHOW_TITLE := "showTitle"
  const SEASON_TITLE := "seasonTitle"

  lemma FieldNames()
    ensures '_' !in TITLE && '_' !in DESCRIPTION && '_' !in SHOW_TITLE && '_' !in SEASON_TITLE
    ensures TITLE != DESCRIPTION && TITLE != SHOW_TITLE && TITLE != SEASON_TITLE
    ensures DESCRIPTION != SHOW_TITLE && DESCRIPTION != SEASON_TITLE && SHOW_TITLE != SEASON_TITLE
  {
    assert |TITLE| == 5 && |DESCRIPTION| == 11 && |SHOW_TITLE| == 9 && |SEASON_TITLE| == 11;
    assert DESCRIPTION[0] != SEASON_TITLE[0];
  }

  function Flat(field: string, lang: string): string { field + ['_'] + lang }

  function ValidEntries(dict: LocaleString): LocaleString {
    map k | k in dict && dict[k].Some? :: dict[k]
  }

  /** The entries that survive the round trip: valid, under a language code without an underscore. */
  function Readable(dict: LocaleString): LocaleString {
    map k | k in dict && dict[k].Some? && '_' !in k :: dict[k]
  }

  function OrEmpty(dict: Option<LocaleString>): LocaleString {
    if dict.Some? then dict.value else map[]
  }

  /** The key holds a valid entry of `dict`. */
  ghost predicate IsFlatKey(field: string, dict: LocaleString, key: string) {
    exists lang :: lang in dict && dict[lang].Some? && key == Flat(field, lang)
  }

  /** `after` is the document `before` with exactly the valid entries of `dict` put in. */
  ghost predicate Flattens(before: Document, field: string, dict: LocaleString, after: Document) {
    && (forall lang :: lang in dict && dict[lang].Some? ==>
          Flat(field, lang) in after && after[Flat(field, lang)] == VStr(dict[lang].value))
    && (forall key :: key in before ==> key in after)
    && (forall key :: key in after && !IsFlatKey(field, dict, key) ==> key in before && after[key] == before[key])
  }

  /** The keys that getLocaleString takes for entries of `field`. */
  predicate Matches(key: string, field: string) {
    HasPrefix(key, field + ['_']) && |Split(key, '_')| == 2
  }

  /** The type assertion in getLocaleString panics on any other value. */
  predicate StringsUnder(doc: Document, field: string) {
    forall key :: key in doc && Matches(key, field) ==> doc[key].VStr?
  }

  /** A key that matches is made of the field and a code without an underscore, and conversely. */
  lemma MatchesFlat(field: string, lang: string)
    ensures Matches(Flat(field, lang), field) <==> '_' !in field && '_' !in lang
    ensures Matches(Flat(field, lang), field) ==> Split(Flat(field, lang), '_') == [field, lang]
  {
    SplitFlat(field, lang);
  }

  lemma {:induction false} SplitFlat(field: string, lang: string)
    ensures |Split(Flat(field, lang), '_')| == |Split(field, '_')| + |Split(lang, '_')|
    ensures '_' !in field ==> Split(Flat(field, lang), '_') == [field] + Split(lang, '_')
    ensures '_' !in field <==> |Split(field, '_')| == 1
    ensures '_' !in lang <==> |Split(lang, '_')| == 1
    ensures '_' !in lang ==> Split(lang, '_') == [lang]
  {
    SplitWhole(field, '_');
    SplitWhole(lang, '_');
    if '_' !in field {
      SplitAtFirst(field, '_', lang);
    } else if field != "" {
      SplitFlat(field[1..], lang);
      assert Flat(field, lang)[1..] == Flat(field[1..], lang);
    }
  }

  lemma MatchesIsFlat(key: string, field: string)
    requires Matches(key, field)
    ensures key == Flat(field, Split(key, '_')[1]) && '_' !in Split(key, '_')[1] && '_' !in field
  {
    var lang := key[|field| + 1..];
    assert key == Flat(field, lang);
    MatchesFlat(field, lang);
  }

  function Langs(doc: Document, field: string): set<string> {
    set key | key in doc && Matches(key, field) :: Split(key, '_')[1]
  }

  lemma LangsAreFlat(doc: Document, field: string, lang: string)
    requires lang in Langs(doc, field)
    ensures Flat(field, lang) in doc && Matches(Flat(field, lang), field)
  {
    var key :| key in doc && Matches(key, field) && Split(key, '_')[1] == lang;
    MatchesIsFlat(key, field);
  }

  /** What getLocaleString reads: the entries under codes without an underscore. */
  function ReadBack(doc: Document, field: string): LocaleString
    requires StringsUnder(doc, field)
  {
    map lang | lang in Langs(doc, field) ::
      assert Flat(field, lang) in doc && Matches(Flat(field, lang), field) by {
        var key :| key in doc && Matches(key, field) && Split(key, '_')[1] == lang;
        MatchesIsFlat(key, field);
      }
      Some(doc[Flat(field, lang)].s)
  }

  lemma ReadBackKeys(doc: Document, field: string, lang: string)
    requires StringsUnder(doc, field)
    ensures lang in ReadBack(doc, field) <==> '_' !in field && '_' !in lang && Flat(field, lang) in doc
    ensures lang in ReadBack(doc, field) ==>
      doc[Flat(field, lang)].VStr? && ReadBack(doc, field)[lang] == Some(doc[Flat(field, lang)].s)
  {
    MatchesFlat(field, lang);
    if lang in Langs(doc, field) {
      var key :| key in doc && Matches(key, field) && Split(key, '_')[1] == lang;
      MatchesIsFlat(key, field);
    }
    if '_' !in field && '_' !in lang && Flat(field, lang) in doc {
      assert Split(Flat(field, lang), '_')[1] == lang;
    }
  }

  /** The document before any localized field: the id and the plain fields. */
  function WithPlain(item: SearchItem): (doc: Document)
    requires item.plain.Keys <= PLAIN_FIELDS
    ensures PlainOnly(doc) && ID in doc && doc[ID] == VStr(item.id)
  {
    item.plain[ID := VStr(item.id)]
  }

  class SearchObject {
    var fields: Document

    constructor ()
      ensures fields == map[]
    {
      fields := map[];
    }

    method MapFromLocaleString(field: string, dict: LocaleString)
      modifies this
      ensures Flattens(old(fields), field, dict, fields)
    {
      var rest := dict.Keys;
      while rest != {}
        invariant rest <= dict.Keys
        invariant Flattens(old(fields), field, dict - rest, fields)
        decreases rest
      {
        var key :| key in rest;
        ghost var before := fields;
        if dict[key].Some? {
          fields := fields[Flat(field, key) := VStr(dict[key].value)];
        }
        FlattensOneMore(old(fields), field, dict, rest, key, before, fields);
        rest := rest - {key};
      }
      assert dict - {} == dict;
    }

    /** None is the panic of the type assertion on a value that is no string. */
    method GetLocaleString(field: string) returns (result: Option<LocaleString>)
      ensures result.Some? <==> StringsUnder(fields, field)
      ensures result.Some? ==> result.value == ReadBack(fields, field)
    {
      var dict: LocaleString := map[];
      var rest := fields.Keys;
      while rest != {}
        invariant rest <= fields.Keys
        invariant forall key :: key in fields && key !in rest && Matches(key, field) ==> fields[key].VStr?
        invariant forall lang :: lang in dict <==>
                    lang in Langs(fields, field) && Flat(field, lang) in fields && Flat(field, lang) !in rest
        invariant forall lang :: lang in dict ==>
                    fields[Flat(field, lang)].VStr? && dict[lang] == Some(fields[Flat(field, lang)].s)
        decreases rest
      {
        var key :| key in rest;
        if HasPrefix(key, field + ['_']) {
          var parts := Split(key, '_');
          if |parts| == 2 {
            MatchesIsFlat(key, field);
            if !fields[key].VStr? {
              return None;
            }
            dict := dict[parts[1] := Some(fields[key].s)];
          }
        }
        assert forall lang, other :: Flat(field, lang) == Flat(field, other) ==> lang == other by {
          FlatInjective(field);
        }
        forall lang | Flat(field, lang) == key && lang in Langs(fields, field) ensures Matches(key, field) {
          LangsAreFlat(fields, field, lang);
        }
        rest := rest - {key};
      }
      forall lang | lang in Langs(fields, field) ensures Flat(field, lang) in fields {
        LangsAreFlat(fields, field, lang);
      }
      result := Some(dict);
    }

    /** The plain fields are written first here; no key of theirs is a flattened key. */
    method ToSearchObject(item: SearchItem)
      requires item.plain.Keys <= PLAIN_FIELDS
      modifies this
      ensures HoldsExactly(fields, item)
      ensures Reads(fields, TITLE, Readable(item.title)) && Reads(fields, DESCRIPTION, Readable(item.description))
      ensures Reads(fields, SHOW_TITLE, Readable(OrEmpty(item.showTitle)))
      ensures Reads(fields, SEASON_TITLE, Readable(OrEmpty(item.seasonTitle)))
    {
      fields := WithPlain(item);
      ghost var base := fields;
      MapFromLocaleString(TITLE, item.title);
      ghost var titled := fields;
      MapFromLocaleString(DESCRIPTION, item.description);
      ghost var described := fields;
      if item.showTitle.Some? {
        MapFromLocaleString(SHOW_TITLE, item.showTitle.value);
      }
      ghost var shown := fields;
      if item.seasonTitle.Some? {
        MapFromLocaleString(SEASON_TITLE, item.seasonTitle.value);
      }
      StagesHoldExactly(base, titled, described, shown, fields, item);
      FourFields(base, titled, described, shown, fields, item);
    }

    /** Reads one localized field and deletes the key of its plain name. */
    method TakeLocaleString(field: string) returns (result: Option<LocaleString>)
      requires '_' !in field
      modifies this
      ensures result.Some? <==> StringsUnder(old(fields), field)
      ensures result.Some? ==> result.value == ReadBack(old(fields), field)
      ensures fields == if result.Some? then old(fields) - {field} else old(fields)
      ensures ReadAlike(old(fields), fields)
    {
      result := GetLocaleString(field);
      DroppedKeyNotRead(fields, field);
      if result.Some? {
        fields := fields - {field};
      }
    }

    /** The id and the four localized fields; None is a panic, on an id or an entry that is no string.
        Empty show and season titles stay unset, which reads as an empty map. */
    method ToSearchHit() returns (result: Option<SearchHit>)
      modifies this
      ensures result.Some? <==> HitReadable(old(fields))
      ensures result.Some? ==> result.value == HitOf(old(fields))
      ensures result.Some? ==> fields == old(fields) - {TITLE} - {DESCRIPTION} - {SHOW_TITLE} - {SEASON_TITLE}
    {
      FieldNames();
      if ID !in fields || !fields[ID].VStr? {
        return None;
      }
      var id := fields[ID].s;
      var title := TakeLocaleString(TITLE);
      if title.None? {
        return None;
      }
      var description := TakeLocaleString(DESCRIPTION);
      if description.None? {
        return None;
      }
      var showTitle := TakeLocaleString(SHOW_TITLE);
      if showTitle.None? {
        return None;
      }
      var seasonTitle := TakeLocaleString(SEASON_TITLE);
      if seasonTitle.None? {
        return None;
      }
      return Some(SearchHit(id, title.value, description.value,
                            if |showTitle.value| > 0 then showTitle.value else map[],
                            if |seasonTitle.value| > 0 then seasonTitle.value else map[]));
    }
  }

  /** Every field is read from both documents alike. */
  ghost predicate ReadAlike(a: Document, b: Document) {
    forall field :: (StringsUnder(a, field) <==> StringsUnder(b, field))
                    && (StringsUnder(a, field) ==> ReadBack(b, field) == ReadBack(a, field))
  }

  predicate HitReadable(doc: Document) {
    && ID in doc && doc[ID].VStr?
    && StringsUnder(doc, TITLE) && StringsUnder(doc, DESCRIPTION)
    && StringsUnder(doc, SHOW_TITLE) && StringsUnder(doc, SEASON_TITLE)
  }

  function HitOf(doc: Document): SearchHit
    requires HitReadable(doc)
  {
    SearchHit(doc[ID].s, ReadBack(doc, TITLE), ReadBack(doc, DESCRIPTION),
              ReadBack(doc, SHOW_TITLE), ReadBack(doc, SEASON_TITLE))
  }

  /** Reading the field succeeds with this result. */
  ghost predicate Reads(doc: Document, field: string, result: LocaleString) {
    StringsUnder(doc, field) && ReadBack(doc, field) == result
  }

  /** Deleting a key without an underscore changes no reading. */
  lemma DroppedKeyNotRead(doc: Document, key: string)
    requires '_' !in key
    ensures ReadAlike(doc, doc - {key})
  {
    SplitWhole(key, '_');
    forall field
      ensures StringsUnder(doc, field) <==> StringsUnder(doc - {key}, field)
      ensures StringsUnder(doc, field) ==> ReadBack(doc - {key}, field) == ReadBack(doc, field)
    {
      if StringsUnder(doc, field) {
        SameReading(doc - {key}, doc, field);
      } else if StringsUnder(doc - {key}, field) {
        SameReading(doc, doc - {key}, field);
      }
    }
  }

  /** Two documents that agree on the matching keys are read alike. */
  lemma SameReading(a: Document, b: Document, field: string)
    requires StringsUnder(b, field)
    requires forall key :: Matches(key, field) ==> (key in a <==> key in b)
    requires forall key :: Matches(key, field) && key in a && key in b ==> a[key] == b[key]
    ensures StringsUnder(a, field) && ReadBack(a, field) == ReadBack(b, field)
  {
    forall lang
      ensures lang in ReadBack(a, field) <==> lang in ReadBack(b, field)
      ensures lang in ReadBack(a, field) ==> ReadBack(a, field)[lang] == ReadBack(b, field)[lang]
    {
      ReadBackKeys(a, field, lang);
      ReadBackKeys(b, field, lang);
      MatchesFlat(field, lang);
    }
  }

  /** The step of toSearchObject for a field that may be absent. */
  ghost predicate MayFlatten(before: Document, field: string, dict: Option<LocaleString>, after: Document) {
    if dict.Some? then Flattens(before, field, dict.value, after) else after == before
  }

  lemma {:induction false} OwnField(before: Document, field: string, dict: Option<LocaleString>, after: Document)
    requires MayFlatten(before, field, dict, after) && '_' !in field && Reads(before, field, map[])
    ensures Reads(after, field, Readable(OrEmpty(dict)))
  {
    if dict.Some? {
      FlattenedReadsBack(before, field, dict.value, after);
    }
  }

  lemma {:induction false} OtherField(before: Document, field: string, dict: Option<LocaleString>, after: Document,
                   other: string, result: LocaleString)
    requires MayFlatten(before, field, dict, after) && '_' !in field && other != field && Reads(before, other, result)
    ensures Reads(after, other, result)
  {
    if dict.Some? {
      OtherFieldKept(before, field, dict.value, after, other);
    }
  }

  ghost predicate IsOptionalFlatKey(field: string, dict: Option<LocaleString>, key: string) {
    dict.Some? && IsFlatKey(field, dict.value, key)
  }

  /** A stage adds the flattened keys and nothing else, and moves no key without an underscore. */
  lemma StageKeys(before: Document, field: string, dict: Option<LocaleString>, after: Document)
    requires MayFlatten(before, field, dict, after)
    ensures forall key :: key in after <==> key in before || IsOptionalFlatKey(field, dict, key)
    ensures forall key :: '_' !in key && key in before ==> after[key] == before[key]
  {
    assert forall lang :: Flat(field, lang)[|field|] == '_';
  }

  /** Every valid entry is in the document, under the prefix and its language code. */
  ghost predicate Localized(doc: Document, prefix: string, dict: Option<LocaleString>) {
    dict.Some? ==> forall lang :: lang in dict.value && dict.value[lang].Some? ==>
      prefix + lang in doc && doc[prefix + lang] == VStr(dict.value[lang].value)
  }

  lemma OwnValues(before: Document, field: string, dict: Option<LocaleString>, after: Document)
    requires MayFlatten(before, field, dict, after)
    ensures Localized(after, field + "_", dict)
  {
    if dict.Some? {
      forall lang | lang in dict.value && dict.value[lang].Some?
        ensures field + "_" + lang in after && after[field + "_" + lang] == VStr(dict.value[lang].value)
      {
        assert field + "_" + lang == Flat(field, lang);
      }
    }
  }

  lemma OtherValues(before: Document, field: string, dict: Option<LocaleString>, after: Document,
                    other: string, entries: Option<LocaleString>)
    requires MayFlatten(before, field, dict, after) && '_' !in field && '_' !in other && other != field
    requires Localized(before, other + "_", entries)
    ensures Localized(after, other + "_", entries)
  {
    if entries.Some? && dict.Some? {
      forall lang | lang in entries.value && entries.value[lang].Some?
        ensures other + "_" + lang in after && after[other + "_" + lang] == before[other + "_" + lang]
      {
        var key := other + "_" + lang;
        if IsFlatKey(field, dict.value, key) {
          var code :| code in dict.value && dict.value[code].Some? && key == Flat(field, code);
          assert key == Flat(other, lang);
          FlatKeysDisjoint(field, code, other, lang);
        }
      }
    }
  }

  /** The keys of the document: the id, the plain fields, the flattened keys, and no other. */
  ghost predicate HasKeys(doc: Document, item: SearchItem) {
    forall key :: key in doc <==>
      || key in item.plain
      || key == "objectID"
      || IsOptionalFlatKey("title", Some(item.title), key)
      || IsOptionalFlatKey("description", Some(item.description), key)
      || IsOptionalFlatKey("showTitle", item.showTitle, key)
      || IsOptionalFlatKey("seasonTitle", item.seasonTitle, key)
  }

  ghost predicate HasPlain(doc: Document, item: SearchItem) {
    && "objectID" in doc && doc["objectID"] == VStr(item.id)
    && forall key :: key in item.plain && key != "objectID" ==> key in doc && doc[key] == item.plain[key]
  }

  ghost predicate HasLocalized(doc: Document, item: SearchItem) {
    && Localized(doc, "title_", Some(item.title)) && Localized(doc, "description_", Some(item.description))
    && Localized(doc, "showTitle_", item.showTitle) && Localized(doc, "seasonTitle_", item.seasonTitle)
  }

  /** The document has the id, the plain fields as they are, every valid entry of the four localized
      fields under its flattened key, and no other key. */
  ghost predicate HoldsExactly(doc: Document, item: SearchItem) {
    HasKeys(doc, item) && HasPlain(doc, item) && HasLocalized(doc, item)
  }

  /** The documents before and after the four localized fields are put in, in the order of toSearchObject. */
  ghost predicate Stages(base: Document, titled: Document, described: Document, shown: Document, final: Document,
                         item: SearchItem) {
    && PlainOnly(base)
    && MayFlatten(base, TITLE, Some(item.title), titled)
    && MayFlatten(titled, DESCRIPTION, Some(item.description), described)
    && MayFlatten(described, SHOW_TITLE, item.showTitle, shown)
    && MayFlatten(shown, SEASON_TITLE, item.seasonTitle, final)
  }

  lemma StagesHoldExactly(base: Document, titled: Document, described: Document, shown: Document, final: Document,
                          item: SearchItem)
    requires item.plain.Keys <= PLAIN_FIELDS && base == WithPlain(item)
    requires Stages(base, titled, described, shown, final, item)
    ensures HoldsExactly(final, item)
  {
    StagesKeys(base, titled, described, shown, final, item);
    StagesPlain(base, titled, described, shown, final, item);
    StagesLocalized(base, titled, described, shown, final, item);
  }

  lemma StagesKeys(base: Document, titled: Document, described: Document, shown: Document, final: Document,
                   item: SearchItem)
    requires item.plain.Keys <= PLAIN_FIELDS && base == WithPlain(item)
    requires Stages(base, titled, described, shown, final, item)
    ensures HasKeys(final, item)
  {
    StageKeys(base, TITLE, Some(item.title), titled);
    StageKeys(titled, DESCRIPTION, Some(item.description), described);
    StageKeys(described, SHOW_TITLE, item.showTitle, shown);
    StageKeys(shown, SEASON_TITLE, item.seasonTitle, final);
  }

  lemma StagesPlain(base: Document, titled: Document, described: Document, shown: Document, final: Document,
                    item: SearchItem)
    requires item.plain.Keys <= PLAIN_FIELDS && base == WithPlain(item)
    requires Stages(base, titled, described, shown, final, item)
    ensures HasPlain(final, item)
  {
    StageKeys(base, TITLE, Some(item.title), titled);
    StageKeys(titled, DESCRIPTION, Some(item.description), described);
    StageKeys(described, SHOW_TITLE, item.showTitle, shown);
    StageKeys(shown, SEASON_TITLE, item.seasonTitle, final);
    forall key | key in base ensures key in final && final[key] == base[key] {
      assert '_' !in key;
    }
  }

  lemma Prefixes()
    ensures TITLE + "_" == "title_" && DESCRIPTION + "_" == "description_"
    ensures SHOW_TITLE + "_" == "showTitle_" && SEASON_TITLE + "_" == "seasonTitle_"
  {
  }

  lemma StagesLocalized(base: Document, titled: Document, described: Document, shown: Document, final: Document,
                        item: SearchItem)
    requires Stages(base, titled, described, shown, final, item)
    ensures HasLocalized(final, item)
  {
    FieldNames();
    Prefixes();
    var title, description := Some(item.title), Some(item.description);
    OwnValues(base, TITLE, title, titled);
    OwnValues(titled, DESCRIPTION, description, described);
    OwnValues(described, SHOW_TITLE, item.showTitle, shown);
    OwnValues(shown, SEASON_TITLE, item.seasonTitle, final);
    OtherValues(titled, DESCRIPTION, description, described, TITLE, title);
    OtherValues(described, SHOW_TITLE, item.showTitle, shown, TITLE, title);
    OtherValues(shown, SEASON_TITLE, item.seasonTitle, final, TITLE, title);
    OtherValues(described, SHOW_TITLE, item.showTitle, shown, DESCRIPTION, description);
    OtherValues(shown, SEASON_TITLE, item.seasonTitle, final, DESCRIPTION, description);
    OtherValues(shown, SEASON_TITLE, item.seasonTitle, final, SHOW_TITLE, item.showTitle);
  }

  /** Nothing is read of a field before its own stage. */
  lemma {:induction false} FirstTwoFields(
    base: Document, titled: Document, described: Document, shown: Document, final: Document, item: SearchItem)
    requires Stages(base, titled, described, shown, final, item)
    ensures Reads(described, TITLE, Readable(item.title)) && Reads(described, DESCRIPTION, Readable(item.description))
    ensures Reads(described, SHOW_TITLE, map[]) && Reads(described, SEASON_TITLE, map[])
  {
    FieldNames();
    var title, description := Some(item.title), Some(item.description);
    PlainReadsNothing(base, TITLE);
    PlainReadsNothing(base, DESCRIPTION);
    PlainReadsNothing(base, SHOW_TITLE);
    PlainReadsNothing(base, SEASON_TITLE);
    OwnField(base, TITLE, title, titled);
    OtherField(base, TITLE, title, titled, DESCRIPTION, map[]);
    OtherField(base, TITLE, title, titled, SHOW_TITLE, map[]);
    OtherField(base, TITLE, title, titled, SEASON_TITLE, map[]);
    OwnField(titled, DESCRIPTION, description, described);
    OtherField(titled, DESCRIPTION, description, described, TITLE, Readable(item.title));
    OtherField(titled, DESCRIPTION, description, described, SHOW_TITLE, map[]);
    OtherField(titled, DESCRIPTION, description, described, SEASON_TITLE, map[]);
  }

  /** In the finished document every localized field reads as its own readable entries. */
  lemma {:induction false} FourFields(
    base: Document, titled: Document, described: Document, shown: Document, final: Document, item: SearchItem)
    requires Stages(base, titled, described, shown, final, item)
    ensures Reads(final, TITLE, Readable(item.title)) && Reads(final, DESCRIPTION, Readable(item.description))
    ensures Reads(final, SHOW_TITLE, Readable(OrEmpty(item.showTitle)))
    ensures Reads(final, SEASON_TITLE, Readable(OrEmpty(item.seasonTitle)))
  {
    FieldNames();
    FirstTwoFields(base, titled, described, shown, final, item);
    OwnField(described, SHOW_TITLE, item.showTitle, shown);
    OtherField(described, SHOW_TITLE, item.showTitle, shown, TITLE, Readable(item.title));
    OtherField(described, SHOW_TITLE, item.showTitle, shown, DESCRIPTION, Readable(item.description));
    OtherField(described, SHOW_TITLE, item.showTitle, shown, SEASON_TITLE, map[]);
    OwnField(shown, SEASON_TITLE, item.seasonTitle, final);
    OtherField(shown, SEASON_TITLE, item.seasonTitle, final, TITLE, Readable(item.title));
    OtherField(shown, SEASON_TITLE, item.seasonTitle, final, DESCRIPTION, Readable(item.description));
    OtherField(shown, SEASON_TITLE, item.seasonTitle, final, SHOW_TITLE, Readable(OrEmpty(item.showTitle)));
  }

  /** The plain keys have no underscore, so they are neither flattened entries nor read as such. */
  predicate PlainOnly(doc: Document) {
    forall key :: key in doc ==> '_' !in key
  }

  lemma FlatInjective(field: string)
    ensures forall lang, other :: Flat(field, lang) == Flat(field, other) ==> lang == other
  {
    assert forall lang :: Flat(field, lang)[|field| + 1..] == lang;
  }

  lemma FlattensOneMore(doc: Document, field: string, dict: LocaleString, rest: set<string>, key: string,
                        before: Document, after: Document)
    requires rest <= dict.Keys && key in rest
    requires Flattens(doc, field, dict - rest, before)
    requires after == if dict[key].Some? then before[Flat(field, key) := VStr(dict[key].value)] else before
    ensures Flattens(doc, field, dict - (rest - {key}), after)
  {
    var less, more := dict - rest, dict - (rest - {key});
    FlatInjective(field);
    forall k | IsFlatKey(field, less, k) ensures IsFlatKey(field, more, k) {
      var lang :| lang in less && less[lang].Some? && k == Flat(field, lang);
      assert lang in more && more[lang].Some?;
    }
    if dict[key].Some? {
      assert key in more && more[key].Some?;
      assert IsFlatKey(field, more, Flat(field, key));
    }
  }

  lemma FlatKeysDisjoint(field: string, lang: string, other: string, code: string)
    requires '_' !in field && '_' !in other && Flat(field, lang) == Flat(other, code)
    ensures field == other && lang == code
  {
    SplitFlat(field, lang);
    SplitFlat(other, code);
    assert field == Split(Flat(field, lang), '_')[0] == other;
    assert Flat(field, lang)[|field| + 1..] == lang;
    assert Flat(other, code)[|other| + 1..] == code;
  }

  lemma PlainReadsNothing(doc: Document, field: string)
    requires PlainOnly(doc)
    ensures StringsUnder(doc, field) && ReadBack(doc, field) == map[]
  {
    forall key | key in doc ensures !Matches(key, field) {
      SplitWhole(key, '_');
    }
    forall lang ensures lang !in ReadBack(doc, field) {
      ReadBackKeys(doc, field, lang);
      assert Flat(field, lang)[|field|] == '_';
    }
  }

  /** Flattening one field leaves what is read for every other field as it was: no bleed. */
  lemma OtherFieldKept(before: Document, field: string, dict: LocaleString, after: Document, other: string)
    requires Flattens(before, field, dict, after) && '_' !in field && field != other
    requires StringsUnder(before, other)
    ensures StringsUnder(after, other) && ReadBack(after, other) == ReadBack(before, other)
  {
    forall key | Matches(key, other) && key in after ensures key in before && after[key] == before[key] {
      MatchesIsFlat(key, other);
      if IsFlatKey(field, dict, key) {
        var lang :| lang in dict && dict[lang].Some? && key == Flat(field, lang);
        FlatKeysDisjoint(field, lang, other, Split(key, '_')[1]);
      }
    }
    SameReading(after, before, other);
  }

  /** Reading a field back gives exactly its valid entries under codes without an underscore. */
  lemma {:induction false} FlattenedReadsBack(before: Document, field: string, dict: LocaleString, after: Document)
    requires Flattens(before, field, dict, after) && '_' !in field
    requires StringsUnder(before, field) && ReadBack(before, field) == map[]
    ensures StringsUnder(after, field) && ReadBack(after, field) == Readable(dict)
  {
    forall key | key in after && Matches(key, field) ensures IsFlatKey(field, dict, key) && after[key].VStr? {
      MatchesIsFlat(key, field);
      ReadBackKeys(before, field, Split(key, '_')[1]);
      assert key !in before;
      var lang :| lang in dict && dict[lang].Some? && key == Flat(field, lang);
    }
    assert StringsUnder(after, field);
    forall lang ensures lang in ReadBack(after, field) <==> lang in Readable(dict) {
      ReadBackKeys(after, field, lang);
      MatchesFlat(field, lang);
      if lang in ReadBack(after, field) {
        var code :| code in dict && dict[code].Some? && Flat(field, lang) == Flat(field, code);
        FlatInjective(field);
      }
    }
    forall lang | lang in Readable(dict) ensures ReadBack(after, field)[lang] == Readable(dict)[lang] {
      ReadBackKeys(after, field, lang);
    }
  }

  /** The round trip is exact just when no valid entry has an underscore in its language code. */
  lemma ReadableIsAllIff(dict: LocaleString)
    ensures Readable(dict) == ValidEntries(dict) <==> forall k :: k in dict && dict[k].Some? ==> '_' !in k
  {
    if k :| k in dict && dict[k].Some? && '_' in k {
      assert k in ValidEntries(dict) && k !in Readable(dict);
    }
  }

  lemma ReadAsHit(doc: Document, item: SearchItem)
    requires item.plain.Keys <= PLAIN_FIELDS && HoldsExactly(doc, item)
    requires Reads(doc, TITLE, Readable(item.title)) && Reads(doc, DESCRIPTION, Readable(item.description))
    requires Reads(doc, SHOW_TITLE, Readable(OrEmpty(item.showTitle)))
    requires Reads(doc, SEASON_TITLE, Readable(OrEmpty(item.seasonTitle)))
    ensures HitReadable(doc)
    ensures HitOf(doc) == SearchHit(item.id, Readable(item.title), Readable(item.description),
                                    Readable(OrEmpty(item.showTitle)), Readable(OrEmpty(item.seasonTitle)))
  {
  }

  /** Flattening and then reading does not panic and gives back, for each localized field, its readable
      entries. */
  method RoundTrip(item: SearchItem) returns (hit: Option<SearchHit>)
    requires item.plain.Keys <= PLAIN_FIELDS
    ensures hit == Some(SearchHit(item.id, Readable(item.title), Readable(item.description),
                                  Readable(OrEmpty(item.showTitle)), Readable(OrEmpty(item.seasonTitle))))
  {
    var doc := new SearchObject();
    doc.ToSearchObject(item);
    ReadAsHit(doc.fields, item);
    hit := doc.ToSearchHit();
  }
}
