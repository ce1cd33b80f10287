/** The sections of the configuration files: one state per section, one owner, any number of readers. */
module ConfigSection {
  import opened Options
  import opened ConfigMerge

  datatype Key = Key(file: string, section: string)

  /** The fields of a section. Field values are opaque text. */
  type Fields = map<string, string>

  /** A model class: which fields it has, what they are by default, and which values it takes. */
  datatype Schema = Schema(id: string, defaults: Fields, accepts: (string, string) -> bool)

  predicate Fits(schema: Schema, value: Fields) {
    value.Keys == schema.defaults.Keys
  }

  function Overlay(defaults: Fields, stored: Fields): Fields {
    map f | f in defaults :: if f in stored then stored[f] else defaults[f]
  }

  /** `model_validate`: fields that are missing get their default, unknown ones are dropped. */
  function Validate(schema: Schema, raw: Fields): (value: Option<Fields>)
    ensures value.Some? ==> Fits(schema, value.value)
  {
    if forall f :: f in raw && f in schema.defaults ==> schema.accepts(f, raw[f]) then
      Some(Overlay(schema.defaults, raw))
    else None
  }

  /** `model_dump(exclude_defaults=True)`. */
  function Dump(schema: Schema, value: Fields): Fields
    requires Fits(schema, value)
  {
    map f | f in value && value[f] != schema.defaults[f] :: value[f]
  }

  // ----- Files

  /** What each file parses to; one that is no mapping is a leaf. */
  type Files = map<string, Value>

  function EntriesOf(v: Value): map<string, Value> {
    if v.Mapping? then v.entries else map[]
  }

  /** What an update starts from; a file that is missing or no mapping counts as empty. */
  function SectionsIn(files: Files, file: string): map<string, Value> {
    if file in files then EntriesOf(files[file]) else map[]
  }

  function Stanza(fields: Fields): Value {
    Mapping(map f | f in fields :: Leaf(fields[f]))
  }

  function TextsOf(entries: map<string, Value>): Fields {
    map f | f in entries && entries[f].Leaf? :: entries[f].text
  }

  /** A section that is all defaults is left out of the file. */
  function Patch(existing: map<string, Value>, section: string, dumped: Fields): map<string, Value> {
    if dumped == map[] then existing - {section} else existing[section := Stanza(dumped)]
  }

  function StoredAt(files: Files, key: Key): Option<Value> {
    StanzaIn(SectionsIn(files, key.file), key.section)
  }

  function StanzaIn(sections: map<string, Value>, section: string): Option<Value> {
    if section in sections then Some(sections[section]) else None
  }

  /** How a value is stored. */
  function AsStored(schema: Schema, value: Fields): Option<Value>
    requires Fits(schema, value)
  {
    var dumped := Dump(schema, value);
    if dumped == map[] then None else Some(Stanza(dumped))
  }

  /** What the stored stanza says, no stanza being an empty one. */
  function FieldsOf(stored: Option<Value>): Fields {
    if stored.Some? then TextsOf(EntriesOf(stored.value)) else map[]
  }

  function Replaced(files: Files, file: string, sections: map<string, Value>): Files {
    files[file := Mapping(sections)]
  }

  /** Writing one section stores exactly its value, and changes no other section of any file. */
  lemma PatchStoresOnlyItsSection(files: Files, key: Key, schema: Schema, value: Fields, other: Key)
    requires Fits(schema, value)
    ensures var patched := Patch(SectionsIn(files, key.file), key.section, Dump(schema, value));
            var files' := Replaced(files, key.file, patched);
            StoredAt(files', other) == if other == key then AsStored(schema, value) else StoredAt(files, other)
  {
  }

  /** The stored fields over the defaults are the value again. */
  lemma StoredFieldsGiveValue(schema: Schema, value: Fields)
    requires Fits(schema, value)
    ensures Overlay(schema.defaults, FieldsOf(AsStored(schema, value))) == value
  {
  }

  // ----- What validation takes, told by the schema

  /** Each field of the schema that is given has a value that the schema takes. */
  ghost predicate TakesAll(schema: Schema, given: Fields) {
    forall f :: f in given && f in schema.defaults ==> schema.accepts(f, given[f])
  }

  /** The fields of the schema, each as given, or else as it is by default. */
  ghost predicate IsFilledFrom(schema: Schema, given: Fields, value: Fields) {
    && (forall f :: f in value <==> f in schema.defaults)
    && (forall f :: f in value && f in given ==> value[f] == given[f])
    && (forall f :: f in value && f !in given && f in schema.defaults ==> value[f] == schema.defaults[f])
  }

  lemma ValidateIff(schema: Schema, given: Fields)
    ensures Validate(schema, given).Some? <==> TakesAll(schema, given)
    ensures Validate(schema, given).Some? ==> IsFilledFrom(schema, given, Validate(schema, given).value)
  {
  }

  /** What is stored of a value: exactly the fields that differ from their default, and nothing if none does. */
  lemma StoredIsWhatDiffers(schema: Schema, value: Fields)
    requires Fits(schema, value)
    ensures match AsStored(schema, value)
            case None => forall f :: f in value && f in schema.defaults ==> value[f] == schema.defaults[f]
            case Some(stanza) =>
              stanza.Mapping? && stanza.entries.Keys != {} && HoldsWhatDiffers(stanza.entries, schema, value)
  {
    var dumped := Dump(schema, value);
    if f :| f in value && f in schema.defaults && value[f] != schema.defaults[f] {
      assert f in dumped;
    }
    if dumped != map[] {
      assert dumped.Keys != {};
      assert Stanza(dumped).entries.Keys == dumped.Keys;
    }
  }

  ghost predicate HoldsWhatDiffers(entries: map<string, Value>, schema: Schema, value: Fields) {
    && (forall f :: f in entries ==> f in value && f in schema.defaults && value[f] != schema.defaults[f])
    && (forall f :: f in value && f in schema.defaults && value[f] != schema.defaults[f] ==> f in entries)
    && (forall f :: f in entries && f in value ==> entries[f] == Leaf(value[f]))
  }

  // ----- Reading a section at startup

  /** A field that the schema has takes no mapping. */
  function ValidateEntries(schema: Schema, entries: map<string, Value>): (value: Option<Fields>)
    ensures value.Some? ==> Fits(schema, value.value)
  {
    if forall f :: f in entries && f in schema.defaults ==> entries[f].Leaf? then Validate(schema, TextsOf(entries))
    else None
  }

  predicate IsNoStanza(found: Option<Value>, falsy: string -> bool) {
    found.Some? && found.value.Leaf? && !falsy(found.value.text)
  }

  /** A section that is missing, or null or the like, counts as empty; any other leaf in its place is refused. */
  function ReadStanza(schema: Schema, found: Option<Value>, falsy: string -> bool): (value: Option<Fields>)
    ensures value.Some? ==> Fits(schema, value.value)
  {
    if IsNoStanza(found, falsy) then None
    else ValidateEntries(schema, if found.Some? then EntriesOf(found.value) else map[])
  }

  /** What was collected has a stanza for the section in which the field stands with this value. */
  predicate StoresField(raw: Files, key: Key, field: string, v: Value) {
    && key.file in raw && raw[key.file].Mapping? && key.section in raw[key.file].entries
    && raw[key.file].entries[key.section].Mapping? && field in raw[key.file].entries[key.section].entries
    && raw[key.file].entries[key.section].entries[field] == v
  }

  /** A leaf stands in place of the section that does not count as nothing. */
  ghost predicate HasLeafInPlace(raw: Files, key: Key, falsy: string -> bool) {
    && key.file in raw && raw[key.file].Mapping? && key.section in raw[key.file].entries
    && raw[key.file].entries[key.section].Leaf? && !falsy(raw[key.file].entries[key.section].text)
  }

  /** Each field of the schema that is stored is a leaf with a value that the schema takes. */
  ghost predicate StoresOnlyAccepted(raw: Files, key: Key, schema: Schema) {
    forall f, v :: f in schema.defaults && StoresField(raw, key, f, v) ==> v.Leaf? && schema.accepts(f, v.text)
  }

  /** Each field has the value that is stored, or else its default. */
  ghost predicate IsReadFrom(raw: Files, key: Key, schema: Schema, value: Fields) {
    && (forall f :: f in value <==> f in schema.defaults)
    && (forall f, v :: f in value && StoresField(raw, key, f, v) ==> v == Leaf(value[f]))
    && (forall f :: f in value && f in schema.defaults && (forall v :: !StoresField(raw, key, f, v)) ==>
          value[f] == schema.defaults[f])
  }

  lemma ReadStanzaReads(raw: Files, key: Key, schema: Schema, falsy: string -> bool)
    ensures IsNoStanza(StoredAt(raw, key), falsy) <==> HasLeafInPlace(raw, key, falsy)
    ensures var read := ReadStanza(schema, StoredAt(raw, key), falsy);
            && (read.Some? <==> !HasLeafInPlace(raw, key, falsy) && StoresOnlyAccepted(raw, key, schema))
            && (read.Some? ==> IsReadFrom(raw, key, schema, read.value))
  {
    var found := StoredAt(raw, key);
    var entries := if found.Some? then EntriesOf(found.value) else map[];
    forall f ensures f in entries ==> StoresField(raw, key, f, entries[f]) {
    }
    forall f, v | StoresField(raw, key, f, v) ensures f in entries && entries[f] == v {
    }
    ValidateIff(schema, TextsOf(entries));
  }

  /** What the layers above a file say of one field. */
  datatype Said = Silent | Says(text: string) | Nested | Cleared

  /** The highest layer counts that names the field, or that has a leaf in place of the whole section. */
  function SaidOf(above: seq<Value>, section: string, field: string): Said {
    if |above| == 0 then Silent
    else
      var top := EntriesOf(above[|above| - 1]);
      if section !in top then SaidOf(above[..|above| - 1], section, field)
      else if top[section].Leaf? then Cleared
      else if field !in top[section].entries then SaidOf(above[..|above| - 1], section, field)
      else if top[section].entries[field].Leaf? then Says(top[section].entries[field].text)
      else Nested
  }

  /** What the highest layer that has the section has in its place. */
  function TopOf(above: seq<Value>, section: string): Option<Value> {
    if |above| == 0 then None
    else
      var top := EntriesOf(above[|above| - 1]);
      if section in top then Some(top[section]) else TopOf(above[..|above| - 1], section)
  }

  ghost predicate AllMappings(layers: seq<Value>) {
    forall i :: 0 <= i < |layers| ==> layers[i].Mapping?
  }

  /** What a stack of layers says of a field, on top of a file that has `low` for it. */
  function FieldUnder(said: Said, low: Option<Value>): Option<Value> {
    match said
    case Silent => low
    case Says(text) => Some(Leaf(text))
    case Cleared => None
    case Nested => low
  }

  function FieldIn(stanza: Option<Value>, field: string): Option<Value> {
    if stanza.Some? then StanzaIn(EntriesOf(stanza.value), field) else None
  }

  /** How the merged configuration compares with the file at its bottom. */
  ghost predicate MergedAs(merged: Value, file: Value, above: seq<Value>, section: string, field: string) {
    && merged.Mapping?
    && var stanza, below := StanzaIn(merged.entries, section), StanzaIn(EntriesOf(file), section);
       && (TopOf(above, section).None? ==> stanza == below)
       && (TopOf(above, section).Some? ==> stanza.Some? && stanza.value.Leaf? == TopOf(above, section).value.Leaf?)
       && (stanza.Some? && stanza.value.Leaf? && TopOf(above, section).Some? ==> stanza == TopOf(above, section))
       && var said := SaidOf(above, section, field);
          if said.Nested? then FieldIn(stanza, field).Some? && FieldIn(stanza, field).value.Mapping?
          else FieldIn(stanza, field) == FieldUnder(said, FieldIn(below, field))
  }

  lemma {:induction false} MergedSection(file: Value, above: seq<Value>, section: string, field: string)
    requires file.Mapping? && AllMappings(above)
    ensures MergedAs(MergeAll([file] + above), file, above, section, field)
  {
    var n := |above| - 1;
    if n < 0 {
      assert [file] + above == [file];
    } else {
      MergedSection(file, above[..n], section, field);
      assert ([file] + above)[..n + 1] == [file] + above[..n];
      MergedSectionStep(MergeAll([file] + above[..n]), file, above, section, field);
    }
  }

  lemma MergedSectionStep(merged: Value, file: Value, above: seq<Value>, section: string, field: string)
    requires |above| > 0 && AllMappings(above) && MergedAs(merged, file, above[..|above| - 1], section, field)
    ensures MergedAs(DeepMerge(merged, above[|above| - 1]), file, above, section, field)
  {
    var top := above[|above| - 1];
    var stanza, stanza' := StanzaIn(merged.entries, section), StanzaIn(DeepMerge(merged, top).entries, section);
    var high := StanzaIn(top.entries, section);
    assert high.None? ==> stanza' == stanza;
    if high.Some? {
      assert stanza' == Some(if stanza.Some? then DeepMerge(stanza.value, high.value) else high.value);
      MergedField(stanza, high.value, field);
    }
  }

  lemma MergedField(stanza: Option<Value>, high: Value, field: string)
    ensures var merged := if stanza.Some? then DeepMerge(stanza.value, high) else high;
            && (merged.Leaf? ==> merged == high) && (merged.Leaf? <==> high.Leaf?)
            && match FieldIn(Some(high), field) {
                 case None => FieldIn(Some(merged), field) == if high.Leaf? then None else FieldIn(stanza, field)
                 case Some(f) =>
                   && FieldIn(Some(merged), field).Some?
                   && (f.Leaf? ==> FieldIn(Some(merged), field) == Some(f))
                   && (f.Mapping? ==> FieldIn(Some(merged), field).value.Mapping?)
               }
  {
  }

  /** The layers above leave the section as the file has it, or say the same. */
  ghost predicate SayNothingElse(above: seq<Value>, section: string, schema: Schema, value: Fields,
                                 falsy: string -> bool)
    requires Fits(schema, value)
  {
    && !IsNoStanza(TopOf(above, section), falsy)
    && forall f :: f in schema.defaults ==> SaysNothingElse(SaidOf(above, section, f), schema.defaults[f], value[f])
  }

  predicate SaysNothingElse(said: Said, byDefault: string, text: string) {
    match said
    case Silent => true
    case Says(t) => t == text
    case Cleared => text == byDefault
    case Nested => false
  }

  /**
   * After a restart the section is read from the merge of the file it was written to, which is the lowest layer, with
   * the layers above. It comes out as it was written exactly when those layers say nothing else: the highest one that
   * speaks of a field says the same, and no leaf stands in place of the section unless it counts as nothing and the
   * field has its default.
   */
  lemma RestartKeepsValueIff(schema: Schema, value: Fields, section: string, file: Value, above: seq<Value>,
                             falsy: string -> bool)
    requires Fits(schema, value) && forall f :: f in value ==> schema.accepts(f, value[f])
    requires file.Mapping? && AllMappings(above) && StanzaIn(file.entries, section) == AsStored(schema, value)
    ensures ReadStanza(schema, StanzaIn(EntriesOf(MergeAll([file] + above)), section), falsy) == Some(value) <==>
            SayNothingElse(above, section, schema, value, falsy)
  {
    var stanza := StanzaIn(EntriesOf(MergeAll([file] + above)), section);
    MergedSection(file, above, section, section);
    ReadStanzaIff(schema, value, stanza, falsy);
    forall f | f in schema.defaults
      ensures f in value && (ReadsAs(FieldIn(stanza, f), schema.defaults[f], value[f]) <==>
                             SaysNothingElse(SaidOf(above, section, f), schema.defaults[f], value[f]))
    {
      assert f in value.Keys;
      MergedSection(file, above, section, f);
      StoredFieldReads(schema, value, f);
    }
  }

  predicate ReadsAs(found: Option<Value>, byDefault: string, text: string) {
    if found.None? then text == byDefault else found.value == Leaf(text)
  }

  lemma ReadStanzaIff(schema: Schema, value: Fields, stanza: Option<Value>, falsy: string -> bool)
    requires Fits(schema, value) && forall f :: f in value ==> schema.accepts(f, value[f])
    ensures ReadStanza(schema, stanza, falsy) == Some(value) <==>
            && !IsNoStanza(stanza, falsy)
            && forall f :: f in schema.defaults.Keys ==> ReadsAs(FieldIn(stanza, f), schema.defaults[f], value[f])
  {
    var entries := if stanza.Some? then EntriesOf(stanza.value) else map[];
    var read := Overlay(schema.defaults, TextsOf(entries));
    if forall f :: f in schema.defaults.Keys ==> ReadsAs(FieldIn(stanza, f), schema.defaults[f], value[f]) {
      forall f | f in schema.defaults ensures f in value && read[f] == value[f] {
        assert f in schema.defaults.Keys && ReadsAs(FieldIn(stanza, f), schema.defaults[f], value[f]);
      }
      forall f | f in entries && f in schema.defaults ensures entries[f].Leaf? && schema.accepts(f, entries[f].text) {
        assert f in schema.defaults.Keys && ReadsAs(FieldIn(stanza, f), schema.defaults[f], value[f]);
      }
      assert read == value;
    } else {
      var f :| f in schema.defaults.Keys && !ReadsAs(FieldIn(stanza, f), schema.defaults[f], value[f]);
      if f in entries && entries[f].Leaf? {
        assert read[f] != value[f];
      }
    }
  }

  lemma StoredFieldReads(schema: Schema, value: Fields, f: string)
    requires Fits(schema, value) && f in schema.defaults && f in value
    ensures ReadsAs(FieldIn(AsStored(schema, value), f), schema.defaults[f], value[f])
  {
    var dumped := Dump(schema, value);
    assert f !in dumped ==> FieldIn(AsStored(schema, value), f) == None;
    assert f in dumped ==> Stanza(dumped).entries[f] == Leaf(value[f]);
  }

  // ----- The objects

  class Disk {
    var files: Files

    constructor (files: Files)
      ensures this.files == files
    {
      this.files := files;
    }
  }

  datatype Change = Change(before: Fields, after: Fields)

  /** `_Section`. */
  class Section {
    const key: Key
    const schema: Schema
    const disk: Disk
    var current: Fields
    var notified: seq<Change>     // what the listeners were told

    ghost predicate Valid()
      reads this
    {
      Fits(schema, current)
    }

    constructor (key: Key, schema: Schema, current: Fields, disk: Disk)
      requires Fits(schema, current)
      ensures Valid() && this.key == key && this.schema == schema
      ensures this.current == current && this.disk == disk && notified == []
    {
      this.key, this.schema, this.current, this.disk := key, schema, current, disk;
      notified := [];
    }

    /**
     * `update`, when no other update of the same file is under way. `writes` says whether the file can be written.
     * It validates, writes, commits and notifies, in this order, and a failure leaves out all that follows.
     */
    method Update(newValue: Fields, writes: bool) returns (ok: bool)
      requires Valid()
      modifies this, disk
      ensures Valid() && ok == (writes && Validate(schema, newValue).Some?)
      ensures !ok ==> current == old(current) && disk.files == old(disk.files) && notified == old(notified)
      ensures ok <==> writes && TakesAll(schema, newValue)
      ensures ok ==> Some(current) == Validate(schema, newValue) && IsFilledFrom(schema, newValue, current)
      ensures ok ==> notified == old(notified) + [Change(old(current), current)]
      ensures ok ==> forall other :: StoredAt(disk.files, other) ==
                                     if other == key then AsStored(schema, current)
                                        else StoredAt(old(disk.files), other)
      ensures ok ==> Overlay(schema.defaults, FieldsOf(StoredAt(disk.files, key))) == current
    {
      ValidateIff(schema, newValue);
      var validated := Validate(schema, newValue);
      if validated.None? {
        return false;
      }
      var before := current;
      ok := WriteAtomic(validated.value, writes);
      if !ok {
        return;
      }
      current := validated.value;
      notified := notified + [Change(before, validated.value)];
      StoredFieldsGiveValue(schema, current);
    }

    method WriteAtomic(value: Fields, writes: bool) returns (ok: bool)
      requires Fits(schema, value)
      modifies disk
      ensures ok == writes
      ensures disk.files == if writes then Replaced(old(disk.files), key.file,
                                                    Patch(SectionsIn(old(disk.files), key.file), key.section,
                                                      Dump(schema, value)))
                            else old(disk.files)
      ensures writes ==> forall other :: StoredAt(disk.files, other) ==
                                         if other == key then AsStored(schema, value)
                                            else StoredAt(old(disk.files), other)
    {
      var existing: map<string, Value> := map[];
      if key.file in disk.files {
        match disk.files[key.file] {
          case Mapping(sections) => existing := sections;
          case Leaf(_) =>
        }
      }
      var dumped := Dump(schema, value);
      if dumped != map[] {
        existing := existing[key.section := Stanza(dumped)];
      } else {
        existing := existing - {key.section};
      }
      if !writes {
        return false;
      }
      forall other ensures var files' := Replaced(disk.files, key.file, existing);
                           StoredAt(files', other) == if other == key then AsStored(schema, value)
                             else StoredAt(disk.files, other) {
        PatchStoresOnlyItsSection(disk.files, key, schema, value, other);
      }
      disk.files := Replaced(disk.files, key.file, existing);
      return true;
    }
  }

  /** The owner's wrapper. */
  class MutableSection {
    const section: Section

    constructor (section: Section)
      ensures this.section == section
    {
      this.section := section;
    }
  }

  /** A reader's wrapper; it has no update. */
  class ReadOnlySection {
    const section: Section

    constructor (section: Section)
      ensures this.section == section
    {
      this.section := section;
    }

    function Get(): Fields
      reads section
    {
      section.current
    }
  }

  datatype Result<T> = Ok(value: T) | AlreadyBound | SchemaMismatch | NotAStanza | Invalid

  class ConfigManager {
    const raw: Files                      // what was collected at startup
    const falsy: string -> bool           // the leaves that count as nothing, such as null
    const disk: Disk
    var sections: map<Key, Section>
    var owned: set<Key>

    ghost predicate Valid()
      reads this, sections.Values
    {
      && owned <= sections.Keys
      && forall key :: key in sections ==>
         sections[key].key == key && sections[key].disk == disk && sections[key].Valid()
    }

    constructor (raw: Files, falsy: string -> bool, disk: Disk)
      ensures Valid() && this.raw == raw && this.disk == disk && sections == map[] && owned == {}
      ensures forall text :: this.falsy(text) == falsy(text)
    {
      this.raw, this.falsy, this.disk := raw, falsy, disk;
      sections, owned := map[], {};
    }

    /** Why a section cannot be handed out under the schema, if it cannot. */
    function Refusal(key: Key, schema: Schema): Option<Result<Section>>
      reads this, sections.Values
    {
      if key in sections then
        if sections[key].schema.id == schema.id then None else Some(SchemaMismatch)
      else if IsNoStanza(StoredAt(raw, key), falsy) then Some(NotAStanza)
      else if ReadStanza(schema, StoredAt(raw, key), falsy).None? then Some(Invalid)
      else None
    }

    method GetOrCreateSection(key: Key, schema: Schema) returns (r: Result<Section>)
      requires Valid()
      modifies this`sections
      ensures Valid() && old(Refusal(key, schema)) == (if r.Ok? then None else Some(r))
      ensures r.Ok? ==> key in sections && r.value == sections[key]
      ensures !r.Ok? || key in old(sections) ==> sections == old(sections)
      ensures r.Ok? && key !in old(sections) ==>
                sections == old(sections)[key := r.value] && fresh(r.value) && r.value.schema == schema
                && Some(r.value.current) == ReadStanza(schema, StoredAt(raw, key), falsy)
                && IsReadFrom(raw, key, schema, r.value.current)
      ensures key !in old(sections) ==>
                (r.Ok? <==> !HasLeafInPlace(raw, key, falsy) && StoresOnlyAccepted(raw, key, schema))
    {
      if key in sections {
        if sections[key].schema.id != schema.id {
          return SchemaMismatch;
        }
        return Ok(sections[key]);
      }
      ReadStanzaReads(raw, key, schema, falsy);
      var found := StoredAt(raw, key);
      if found.Some? && found.value.Leaf? && falsy(found.value.text) {
        found := None;
      }
      if found.Some? && found.value.Leaf? {
        return NotAStanza;
      }
      var instance := ValidateEntries(schema, if found.Some? then found.value.entries else map[]);
      if instance.None? {
        return Invalid;
      }
      var section := new Section(key, schema, instance.value, disk);
      sections := sections[key := section];
      return Ok(section);
    }

    /** The first owner of a section is its only one, and gets the state that all readers share. */
    method BindSection(key: Key, schema: Schema) returns (r: Result<MutableSection>)
      requires Valid()
      modifies this
      ensures Valid() && r.Ok? == (key !in old(owned) && old(Refusal(key, schema)).None?)
      ensures r.Ok? <==> key !in old(owned) &&
                         if key in old(sections) then old(sections[key].schema.id) == schema.id
                         else !HasLeafInPlace(raw, key, falsy) && StoresOnlyAccepted(raw, key, schema)
      ensures r.AlreadyBound? <==> key in old(owned)
      ensures owned == if r.Ok? then old(owned) + {key} else old(owned)
      ensures r.Ok? ==> key in sections && r.value.section == sections[key]
      ensures forall k :: k in old(sections) ==> k in sections && sections[k] == old(sections)[k]
    {
      if key in owned {
        return AlreadyBound;
      }
      var found := GetOrCreateSection(key, schema);
      match found {
        case Ok(section) =>
          owned := owned + {key};
          var wrapper := new MutableSection(section);
          return Ok(wrapper);
        case AlreadyBound => return AlreadyBound;
        case SchemaMismatch => return SchemaMismatch;
        case NotAStanza => return NotAStanza;
        case Invalid => return Invalid;
      }
    }

    method GetSection(key: Key, schema: Schema) returns (r: Result<ReadOnlySection>)
      requires Valid()
      modifies this`sections
      ensures Valid() && r.Ok? == old(Refusal(key, schema)).None?
      ensures r.Ok? <==> if key in old(sections) then old(sections[key].schema.id) == schema.id
                         else !HasLeafInPlace(raw, key, falsy) && StoresOnlyAccepted(raw, key, schema)
      ensures r.Ok? ==> key in sections && r.value.section == sections[key]
      ensures forall k :: k in old(sections) ==> k in sections && sections[k] == old(sections)[k]
    {
      var found := GetOrCreateSection(key, schema);
      match found {
        case Ok(section) =>
          var wrapper := new ReadOnlySection(section);
          return Ok(wrapper);
        case AlreadyBound => return AlreadyBound;
        case SchemaMismatch => return SchemaMismatch;
        case NotAStanza => return NotAStanza;
        case Invalid => return Invalid;
      }
    }
  }
}
