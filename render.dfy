/** Rendering of one log entry (main.go's processLog): an entry that decodes
    as a JSON object gets a "JSON Log" block with a pretty-printed preview in
    which long or multi-line fields are replaced by a placeholder
    (processJSONForDisplay), followed by one section per replaced field
    holding its full unescaped text (collectEscapedValues); any other entry
    gets a "Plain Text Log" block. Decoding and pretty-printing are done by
    `encoding/json` and are parameters here. */
module Render {
  import opened Text
  import opened JsonData

  /** The text that stands in the preview for a field shown in full below. */
  const Placeholder := "--- SEE BELOW ---"

  /** A string field longer than this, once unescaped, gets its own section. */
  const LongLimit := 100

  const PlainHeading := "## Plain Text Log\n\n"
  const JsonHeading := "## JSON Log\n\n"
  const JsonFence := "```json\n"
  const Rule := "\n---\n\n"

  /** A string field is shown below when its unescaped form has a line break
      or is longer than `LongLimit` (a length in characters here; Go's `len`
      counts bytes). */
  predicate NeedsOwnSection(s: string) {
    var u := Unescape(s);
    '\n' in u || |u| > LongLimit
  }

  predicate AllStrings(items: seq<Json>) {
    forall i :: 0 <= i < |items| ==> items[i].Str?
  }

  predicate SomeMultiLine(items: seq<Json>) {
    exists i :: 0 <= i < |items| && items[i].Str? && '\n' in Unescape(items[i].s)
  }

  /** An array is shown below when all its elements are strings and at least
      one of them has a line break once unescaped; long elements alone do not
      count. */
  predicate MultiLineArray(items: seq<Json>) {
    AllStrings(items) && SomeMultiLine(items)
  }

  /** The values the preview replaces by the placeholder. */
  predicate Summarized(v: Json) {
    match v
    case Str(s) => NeedsOwnSection(s)
    case Arr(items) => MultiLineArray(items)
    case _ => false
  }

  /** The preview of one field value: summarized values become the
      placeholder, objects are rebuilt recursively, everything else (short
      strings still escaped, other arrays, numbers, booleans, null) is kept. */
  function DisplayValue(v: Json): (r: Json)
    ensures Summarized(v) ==> r == Str(Placeholder)
    ensures !Summarized(v) && !v.Obj? ==> r == v
    ensures v.Obj? <==> r.Obj?
    ensures v.Obj? ==> r.fields.Keys == v.fields.Keys
    decreases v, 1
  {
    match v
    case Str(s) => if NeedsOwnSection(s) then Str(Placeholder) else v
    case Arr(items) => if MultiLineArray(items) then Str(Placeholder) else v
    case Obj(m) => Obj(ProcessJSONForDisplay(m))
    case _ => v
  }

  /** processJSONForDisplay: a new map with the same keys, each value replaced
      by its preview; the input map is not changed. */
  function ProcessJSONForDisplay(data: map<string, Json>): (r: map<string, Json>)
    ensures r.Keys == data.Keys
    decreases Obj(data), 0
  {
    map key | key in data :: DisplayValue(data[key])
  }

  /** The placeholder itself is short and has no backslash or line break, so
      a preview shown again keeps it. */
  lemma PlaceholderNotSummarized()
    ensures !Summarized(Str(Placeholder))
  {
    assert '\\' !in Placeholder && '\n' !in Placeholder;
  }

  /** Building the preview of a preview changes nothing. */
  lemma {:induction false} DisplayValueIdempotent(v: Json)
    ensures DisplayValue(DisplayValue(v)) == DisplayValue(v)
    decreases v, 1
  {
    match v
    case Obj(m) => DisplayIdempotent(m);
    case _ => PlaceholderNotSummarized();
  }

  /** processJSONForDisplay is idempotent. */
  lemma {:induction false} DisplayIdempotent(data: map<string, Json>)
    ensures ProcessJSONForDisplay(ProcessJSONForDisplay(data)) == ProcessJSONForDisplay(data)
    decreases Obj(data), 0
  {
    var once := ProcessJSONForDisplay(data);
    forall key | key in data
      ensures DisplayValue(once[key]) == once[key]
    {
      DisplayValueIdempotent(data[key]);
    }
  }

  /** One section of the extracted output: a string field with its unescaped
      text, or an array field with the unescaped text of every element, in
      array order. */
  datatype Section = Field(key: string, text: string) | Values(key: string, texts: seq<string>)

  function ValuesHeading(key: string): string {
    "\n### Field `" + key + "` Values:\n\n"
  }

  /** The block written for the `n`-th element of an array (counting from 1). */
  function ItemText(n: nat, text: string): string {
    "#### Item " + DecimalString(n) + ":\n```\n" + text + "\n```\n"
  }

  /** The blocks for all elements, numbered 1, 2, ... in order. */
  function ItemsText(texts: seq<string>): string
    decreases |texts|
  {
    if |texts| == 0 then ""
    else ItemsText(texts[..|texts| - 1]) + ItemText(|texts|, texts[|texts| - 1])
  }

  /** Writing one more element's block. */
  lemma ItemsTextSnoc(texts: seq<string>, i: nat)
    requires i < |texts|
    ensures ItemsText(texts[..i + 1]) == ItemsText(texts[..i]) + ItemText(i + 1, texts[i])
  {
    assert texts[..i + 1][..i] == texts[..i];
  }

  /** The blocks of the elements, written one after the other: element `i`
      (from 0) is numbered `i + 1` and shows `texts[i]`. */
  lemma {:induction false} ItemsTextNumbered(texts: seq<string>)
    ensures ItemsText(texts) == Concat(seq(|texts|, i requires 0 <= i < |texts| => ItemText(i + 1, texts[i])))
    decreases |texts|
  {
    var blocks := seq(|texts|, i requires 0 <= i < |texts| => ItemText(i + 1, texts[i]));
    if |texts| > 0 {
      var init := texts[..|texts| - 1];
      ItemsTextNumbered(init);
      assert blocks[..|blocks| - 1] == seq(|init|, i requires 0 <= i < |init| => ItemText(i + 1, init[i]));
    }
  }

  /** The markdown written for one section. */
  function SectionText(sec: Section): string {
    match sec
    case Field(key, text) => "\n### Field `" + key + "`:\n\n```\n" + text + "\n```\n"
    case Values(key, texts) => ValuesHeading(key) + ItemsText(texts)
  }

  /** The text of each section, in order. */
  function SectionTexts(secs: seq<Section>): seq<string> {
    seq(|secs|, i requires 0 <= i < |secs| => SectionText(secs[i]))
  }

  /** Sections written one after the other. */
  function SectionsText(secs: seq<Section>): string {
    Concat(SectionTexts(secs))
  }

  /** Writing two runs of sections is writing the first, then the second. */
  lemma SectionsTextAppend(a: seq<Section>, b: seq<Section>)
    ensures SectionsText(a + b) == SectionsText(a) + SectionsText(b)
  {
    assert SectionTexts(a + b) == SectionTexts(a) + SectionTexts(b);
    ConcatAppend(SectionTexts(a), SectionTexts(b));
  }

  /** The unescaped text of every element of an all-string array, in order. */
  function UnescapeAll(items: seq<Json>): seq<string>
    requires AllStrings(items)
  {
    seq(|items|, i requires 0 <= i < |items| => Unescape(items[i].s))
  }

  /** The sections a string or array field produces: one exactly when the
      preview replaces it. */
  function LeafSections(key: string, v: Json): (r: multiset<Section>)
    ensures r != multiset{} <==> Summarized(v)
    ensures v.Str? && Summarized(v) ==> r == multiset{Field(key, Unescape(v.s))}
    ensures v.Arr? && Summarized(v) ==> r == multiset{Values(key, UnescapeAll(v.items))}
  {
    match v
    case Str(s) => if NeedsOwnSection(s) then multiset{Field(key, Unescape(s))} else multiset{}
    case Arr(items) => if MultiLineArray(items) then multiset{Values(key, UnescapeAll(items))} else multiset{}
    case _ => multiset{}
  }

  /** The sections produced for one key of a map: those of a nested object,
      or the field's own. */
  ghost function KeySections(data: map<string, Json>, key: string): multiset<Section>
    requires key in data
    decreases Obj(data), 0
  {
    match data[key]
    case Obj(sub) => ExtractedOver(sub, sub.Keys)
    case _ => LeafSections(key, data[key])
  }

  /** The sections produced for the keys `keys` of `data`, in no particular
      order (Go visits map keys in an unspecified order). */
  ghost function ExtractedOver(data: map<string, Json>, keys: set<string>): multiset<Section>
    requires keys <= data.Keys
    decreases Obj(data), |keys| + 1
  {
    if keys == {} then multiset{}
    else
      var key :| key in keys;
      ExtractedOver(data, keys - {key}) + KeySections(data, key)
  }

  /** Everything collectEscapedValues writes for `data`, as a multiset of
      sections. */
  ghost function Extracted(data: map<string, Json>): multiset<Section> {
    ExtractedOver(data, data.Keys)
  }

  /** The extracted sections do not depend on the order in which keys are
      visited: any key can be taken out first. */
  lemma {:induction false} ExtractedOverChoose(data: map<string, Json>, keys: set<string>, key: string)
    requires keys <= data.Keys && key in keys
    ensures ExtractedOver(data, keys) == ExtractedOver(data, keys - {key}) + KeySections(data, key)
    decreases |keys|
  {
    var first :| first in keys && ExtractedOver(data, keys) == ExtractedOver(data, keys - {first}) + KeySections(data, first);
    if first != key {
      ExtractedOverChoose(data, keys - {first}, key);
      ExtractedOverChoose(data, keys - {key}, first);
      assert keys - {first} - {key} == keys - {key} - {first};
    }
  }

  /** Visiting one more key adds that key's sections. */
  lemma ExtractedStep(data: map<string, Json>, keys: set<string>, key: string,
                      secs: seq<Section>, added: seq<Section>)
    requires keys <= data.Keys && key in keys
    requires multiset(secs) == ExtractedOver(data, data.Keys - keys)
    requires multiset(added) == KeySections(data, key)
    ensures multiset(secs + added) == ExtractedOver(data, data.Keys - (keys - {key}))
  {
    var visited := data.Keys - keys;
    assert data.Keys - (keys - {key}) == visited + {key};
    ExtractedOverChoose(data, visited + {key}, key);
    assert visited + {key} - {key} == visited;
  }

  /** The extractor matches the preview key by key: a string or array field
      gets a section exactly when the preview changed it (to the placeholder),
      with the field's own key and its unescaped text; a nested object's
      sections are among its parent's. */
  lemma ExtractorMatchesDisplay(data: map<string, Json>, key: string)
    requires key in data
    ensures KeySections(data, key) <= Extracted(data)
    ensures !data[key].Obj? ==>
      (KeySections(data, key) != multiset{} <==> ProcessJSONForDisplay(data)[key] != data[key])
    ensures !data[key].Obj? && ProcessJSONForDisplay(data)[key] != data[key] ==>
      ProcessJSONForDisplay(data)[key] == Str(Placeholder)
    ensures data[key].Str? && ProcessJSONForDisplay(data)[key] != data[key] ==>
      Field(key, Unescape(data[key].s)) in Extracted(data)
    ensures data[key].Arr? && ProcessJSONForDisplay(data)[key] != data[key] ==>
      AllStrings(data[key].items) && Values(key, UnescapeAll(data[key].items)) in Extracted(data)
    ensures data[key].Obj? ==>
      Extracted(data[key].fields) <= Extracted(data) &&
      ProcessJSONForDisplay(data)[key] == Obj(ProcessJSONForDisplay(data[key].fields))
  {
    ExtractedOverChoose(data, data.Keys, key);
    PlaceholderNotSummarized();
  }

  /** One key yields no section exactly when its preview equals the value. */
  lemma {:induction false} KeyUnchangedIffNoSections(data: map<string, Json>, key: string)
    requires key in data
    ensures KeySections(data, key) == multiset{} <==> DisplayValue(data[key]) == data[key]
    decreases Obj(data), 0
  {
    match data[key]
    case Obj(sub) =>
      ExtractedOverEmptyIff(sub, sub.Keys);
      assert ProcessJSONForDisplay(sub) == sub <==> forall k :: k in sub ==> DisplayValue(sub[k]) == sub[k];
    case _ =>
      PlaceholderNotSummarized();
  }

  /** The keys in `keys` yield no section exactly when the preview leaves all
      of them unchanged. */
  lemma {:induction false} ExtractedOverEmptyIff(data: map<string, Json>, keys: set<string>)
    requires keys <= data.Keys
    ensures ExtractedOver(data, keys) == multiset{} <==>
      forall k :: k in keys ==> DisplayValue(data[k]) == data[k]
    decreases Obj(data), |keys| + 1
  {
    if keys != {} {
      var key :| key in keys;
      ExtractedOverChoose(data, keys, key);
      ExtractedOverEmptyIff(data, keys - {key});
      KeyUnchangedIffNoSections(data, key);
    }
  }

  /** collectEscapedValues writes nothing exactly when processJSONForDisplay
      returns its input unchanged, at every nesting depth. */
  lemma NothingExtractedIffUnchanged(data: map<string, Json>)
    ensures Extracted(data) == multiset{} <==> ProcessJSONForDisplay(data) == data
  {
    ExtractedOverEmptyIff(data, data.Keys);
    assert ProcessJSONForDisplay(data) == data <==> forall k :: k in data ==> DisplayValue(data[k]) == data[k];
  }

  /** Scanning one more string element of an array. */
  lemma ScanStep(items: seq<Json>, i: nat)
    requires i < |items| && items[i].Str? && AllStrings(items[..i])
    ensures AllStrings(items[..i + 1])
    ensures UnescapeAll(items[..i + 1]) == UnescapeAll(items[..i]) + [Unescape(items[i].s)]
    ensures SomeMultiLine(items[..i + 1]) <==> SomeMultiLine(items[..i]) || '\n' in Unescape(items[i].s)
  {
    var init, next := items[..i], items[..i + 1];
    assert next == init + [items[i]];
    if SomeMultiLine(next) && !('\n' in Unescape(items[i].s)) {
      var k :| 0 <= k < |next| && next[k].Str? && '\n' in Unescape(next[k].s);
      assert init[k] == next[k];
    }
  }

  /** The inner loop of collectEscapedValues over an array: it stops at the
      first element that is not a string, and otherwise collects every
      element's unescaped text and notes whether one has a line break. */
  method ScanArray(items: seq<Json>) returns (allStrings: bool, shouldFormat: bool, stringsToFormat: seq<string>)
    ensures allStrings <==> AllStrings(items)
    ensures allStrings ==> stringsToFormat == UnescapeAll(items)
    ensures allStrings ==> (shouldFormat <==> SomeMultiLine(items))
  {
    allStrings := true;
    stringsToFormat := [];
    shouldFormat := false;
    var i := 0;
    while i < |items|
      invariant 0 <= i <= |items|
      invariant allStrings
      invariant AllStrings(items[..i])
      invariant stringsToFormat == UnescapeAll(items[..i])
      invariant shouldFormat <==> SomeMultiLine(items[..i])
    {
      if items[i].Str? {
        var unescaped := Unescape(items[i].s);
        if '\n' in unescaped {
          shouldFormat := true;
        }
        stringsToFormat := stringsToFormat + [unescaped];
        ScanStep(items, i);
        i := i + 1;
      } else {
        allStrings := false;
        break;
      }
    }
    if allStrings {
      assert items[..i] == items;
    }
  }

  /** The "Values" section of an array field: a heading, then one numbered
      block per element, in array order. */
  method WriteValues(key: string, texts: seq<string>) returns (out: string)
    ensures out == SectionText(Values(key, texts))
  {
    out := ValuesHeading(key);
    assert out == SectionText(Values(key, texts[..0]));
    for i := 0 to |texts|
      invariant out == SectionText(Values(key, texts[..i]))
    {
      ValuesSnoc(key, texts, i);
      out := out + ItemText(i + 1, texts[i]);
    }
    assert texts[..|texts|] == texts;
  }

  /** Writing one more element's block extends the section. */
  lemma ValuesSnoc(key: string, texts: seq<string>, i: nat)
    requires i < |texts|
    ensures SectionText(Values(key, texts[..i + 1])) == SectionText(Values(key, texts[..i])) + ItemText(i + 1, texts[i])
  {
    ItemsTextSnoc(texts, i);
  }

  /** A single section written on its own. */
  lemma SectionsTextOne(sec: Section)
    ensures SectionsText([sec]) == SectionText(sec)
  {
    var t := SectionText(sec);
    assert SectionTexts([sec]) == [t];
    assert [t][..0] == [];
    assert Concat([t]) == Concat([]) + t;
  }

  /** collectEscapedValues: visits the keys of `data` in an arbitrary order
      and writes the sections of every key. What it writes is the extracted
      multiset of sections, in some order. */
  method CollectEscapedValues(data: map<string, Json>) returns (out: string)
    ensures exists secs: seq<Section> :: multiset(secs) == Extracted(data) && out == SectionsText(secs)
    decreases Obj(data), 1
  {
    out := "";
    ghost var secs: seq<Section> := [];
    var keys := data.Keys;
    while keys != {}
      invariant keys <= data.Keys
      invariant multiset(secs) == ExtractedOver(data, data.Keys - keys)
      invariant out == SectionsText(secs)
      decreases |keys|
    {
      var key :| key in keys;
      var piece, added := CollectField(data, key);
      SectionsTextAppend(secs, added);
      ExtractedStep(data, keys, key, secs, added);
      out := out + piece;
      secs := secs + added;
      keys := keys - {key};
    }
    assert data.Keys - keys == data.Keys;
  }

  /** One pass of collectEscapedValues' loop, for the field `key`: a string
      field that is multi-line or long once unescaped gets a "Field" section;
      an all-string array with a multi-line element gets a "Values" section;
      a nested object is collected recursively; anything else writes nothing.
      `added` names the sections written, for the proof. */
  method CollectField(data: map<string, Json>, key: string) returns (piece: string, ghost added: seq<Section>)
    requires key in data
    ensures multiset(added) == KeySections(data, key)
    ensures piece == SectionsText(added)
    decreases Obj(data), 0
  {
    piece := "";
    added := [];
    match data[key] {
      case Str(v) =>
        var unescaped := Unescape(v);
        if '\n' in unescaped || |unescaped| > LongLimit {
          piece := "\n### Field `" + key + "`:\n\n```\n" + unescaped + "\n```\n";
          added := [Field(key, unescaped)];
          SectionsTextOne(Field(key, unescaped));
        }
      case Arr(items) =>
        var allStrings, shouldFormat, stringsToFormat := ScanArray(items);
        if allStrings && shouldFormat {
          piece := WriteValues(key, stringsToFormat);
          added := [Values(key, stringsToFormat)];
          SectionsTextOne(Values(key, stringsToFormat));
        }
      case Obj(sub) =>
        piece := CollectEscapedValues(sub);
        added :| multiset(added) == Extracted(sub) && piece == SectionsText(added);
      case _ =>
    }
  }

  /** The markdown block for a plain-text entry. */
  function PlainBlock(log: string): string {
    PlainHeading + "```\n" + log + "\n```\n" + Rule
  }

  /** The markdown block for a JSON entry, given the pretty-printed preview
      and the text of the extracted sections. */
  function JsonBlock(pretty: string, sections: string): string {
    JsonHeading + JsonFence + pretty + "\n" + "```\n" + sections + Rule
  }

  /** `out` is a possible result of processLog for `log`: `parse` stands for
      json.Unmarshal into a map (None when it returns an error) and `marshal`
      for json.MarshalIndent with two-space indentation. */
  ghost predicate Renders(log: string, out: string,
                          parse: string -> Option<map<string, Json>>,
                          marshal: map<string, Json> -> string)
  {
    match parse(log)
    case None => out == PlainBlock(log)
    case Some(data) =>
      exists secs: seq<Section> ::
        multiset(secs) == Extracted(data) &&
        out == JsonBlock(marshal(ProcessJSONForDisplay(data)), SectionsText(secs))
  }

  /** The preview block of processLog: the pretty-printed text is split on
      "\n" and every piece is written followed by "\n", inside a `json` code
      block. */
  method WritePreview(prettyJSON: string) returns (out: string)
    ensures out == JsonFence + prettyJSON + "\n" + "```\n"
  {
    var jsonLines := Split(prettyJSON);
    out := JsonFence;
    for i := 0 to |jsonLines|
      invariant out == JsonFence + JoinTerminated(jsonLines[..i])
    {
      assert jsonLines[..i + 1][..i] == jsonLines[..i];
      out := out + jsonLines[i];
      out := out + "\n";
    }
    assert jsonLines[..|jsonLines|] == jsonLines;
    SplitRejoin(prettyJSON);
    out := out + "```\n";
  }

  /** A plain-text block ends with the horizontal rule. */
  lemma PlainBlockFraming(log: string)
    ensures EndsWith(PlainBlock(log), Rule)
  {
    EndsWithConcat(PlainHeading + "```\n" + log + "\n```\n", Rule);
  }

  /** A JSON block starts with its heading and the `json` fence and ends with
      the horizontal rule. */
  lemma JsonBlockFraming(pretty: string, sections: string)
    ensures StartsWith(JsonBlock(pretty, sections), JsonHeading + JsonFence)
    ensures EndsWith(JsonBlock(pretty, sections), Rule)
  {
    var body := pretty + "\n" + "```\n" + sections;
    assert JsonBlock(pretty, sections) == (JsonHeading + JsonFence) + (body + Rule);
    StartsWithConcat(JsonHeading + JsonFence, body + Rule);
    assert JsonBlock(pretty, sections) == (JsonHeading + JsonFence + body) + Rule;
    EndsWithConcat(JsonHeading + JsonFence + body, Rule);
  }

  /** The framing of every rendered block: it ends with the horizontal rule;
      a plain-text entry is exactly its heading, the entry in a code block and
      the rule; a JSON entry starts with its heading and the `json` fence. */
  lemma RenderFraming(log: string, out: string,
                      parse: string -> Option<map<string, Json>>,
                      marshal: map<string, Json> -> string)
    requires Renders(log, out, parse, marshal)
    ensures EndsWith(out, "\n---\n\n")
    ensures parse(log).None? ==> out == "## Plain Text Log\n\n```\n" + log + "\n```\n\n---\n\n"
    ensures parse(log).Some? ==> StartsWith(out, "## JSON Log\n\n```json\n")
  {
    match parse(log)
    case None =>
      PlainBlockFraming(log);
    case Some(data) =>
      var secs :| multiset(secs) == Extracted(data) &&
        out == JsonBlock(marshal(ProcessJSONForDisplay(data)), SectionsText(secs));
      JsonBlockFraming(marshal(ProcessJSONForDisplay(data)), SectionsText(secs));
  }

  /** processLog: a JSON object entry gets its heading, the preview in a
      `json` code block and the extracted sections; any other entry is shown
      verbatim in a plain code block; both end with a horizontal rule. */
  method ProcessLog(log: string,
                    parse: string -> Option<map<string, Json>>,
                    marshal: map<string, Json> -> string) returns (out: string)
    ensures Renders(log, out, parse, marshal)
    ensures EndsWith(out, Rule)
  {
    var parsed := parse(log);
    match parsed {
      case Some(jsonData) =>
        var processedJSON := ProcessJSONForDisplay(jsonData);
        var preview := WritePreview(marshal(processedJSON));
        var sections := CollectEscapedValues(jsonData);
        out := JsonHeading + preview + sections;
        ghost var secs :| multiset(secs) == Extracted(jsonData) && sections == SectionsText(secs);
        JsonBlockParts(marshal(processedJSON), preview, sections);
      case None =>
        out := PlainHeading + "```\n" + log + "\n```\n";
    }
    EndsWithConcat(out, Rule);
    out := out + Rule;
  }

  /** The JSON block as processLog writes it: heading, preview, sections and
      the rule, one after the other. */
  lemma JsonBlockParts(pretty: string, preview: string, sections: string)
    requires preview == JsonFence + pretty + "\n" + "```\n"
    ensures JsonHeading + preview + sections + Rule == JsonBlock(pretty, sections)
  {
  }
}
