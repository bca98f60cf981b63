/**
 * The text side of services/geminiService.ts: the system instruction given to
 * the assistant, and the parser that turns the search response of
 * `fetchWebResources` into resource items. The response text and the clock
 * readings are inputs; the call that produces the text is not modelled.
 */
module WebResources {

  import opened Types
  import opened JsText

  const Persona: string :=
    "You are GrameenSahayak, a helpful, empathetic, and simple-speaking digital assistant for rural communities. "

  const Goal: string :=
    "Your goal is to help users understand digital concepts (like UPI payments, online banking, telehealth), "
    + "government schemes, and agricultural market prices. Keep answers short, practical, and encouraging. "
    + "Avoid complex technical jargon."

  /** The middle sentence, picked by language; every other language falls to the English one. */
  function ReplyInstruction(language: Language): string
  {
    if language == Hindi then "Reply in Hindi (using Devanagari script). "
    else if language == Telugu then "Reply in Telugu. "
    else if language == Tamil then "Reply in Tamil. "
    else if language == Malayalam then "Reply in Malayalam. "
    else "Reply in simple, plain English suitable for non-native speakers. "
  }

  /** Each language gets its own reply sentence. */
  lemma ReplyInstructionDistinct(a: Language, b: Language)
    ensures a != b ==> ReplyInstruction(a) != ReplyInstruction(b)
  {
  }

  /** `getSystemInstruction`: persona, then the language's sentence, then the goal. */
  method GetSystemInstruction(language: Language) returns (instruction: string)
    ensures StartsWith(instruction, Persona)
    ensures |instruction| >= |Persona| + |Goal| && instruction[|instruction| - |Goal|..] == Goal
    ensures instruction[|Persona|..|instruction| - |Goal|] == ReplyInstruction(language)
  {
    instruction := Persona;
    instruction := instruction + ReplyInstruction(language);
    instruction := instruction + Goal;
    assert instruction[..|Persona|] == Persona;
    assert instruction[|Persona|..|instruction| - |Goal|] == ReplyInstruction(language);
  }

  /** `c.trim().length > 10`: the chunks worth parsing. */
  predicate LongEnough(chunk: string)
  {
    Utf16Length(Trim(chunk)) > 10
  }

  /** `chunks.filter(c => c.trim().length > 10)`. */
  function KeepLong(chunks: seq<string>): (r: seq<string>)
    ensures |r| <= |chunks| && IsSublist(r, chunks)
    ensures forall c :: c in r ==> LongEnough(c)
    ensures forall c :: multiset(r)[c] == if LongEnough(c) then multiset(chunks)[c] else 0
  {
    if chunks == [] then []
    else
      assert chunks == [chunks[0]] + chunks[1..];
      if LongEnough(chunks[0]) then [chunks[0]] + KeepLong(chunks[1..])
      else KeepLong(chunks[1..])
  }

  /** The pieces of the response between `---` separators that are long enough, in order. */
  function KeptChunks(text: string): seq<string>
  {
    KeepLong(SplitDashes(text))
  }

  /**
   * The kept chunks are the pieces of the `---` split, in order, that are long
   * enough, each as many times as the split gives it.
   */
  lemma KeptChunksAreLongPieces(text: string)
    ensures var kept, pieces := KeptChunks(text), SplitDashes(text);
      && IsSublist(kept, pieces)
      && (forall c :: c in kept ==> LongEnough(c))
      && (forall c :: multiset(kept)[c] == if LongEnough(c) then multiset(pieces)[c] else 0)
  {
    var pieces := SplitDashes(text);
    assert KeptChunks(text) == KeepLong(pieces);
  }

  /** The category a `Category:` value maps to, by the first keyword it contains. */
  function CategoryOf(categoryStr: string): ResourceCategory
  {
    if Includes(categoryStr, "Agri") then Agriculture
    else if Includes(categoryStr, "Fin") then Finance
    else if Includes(categoryStr, "Health") then Healthcare
    else if Includes(categoryStr, "Edu") then Education
    else Government
  }

  /**
   * The keywords are tried in the order Agri, Fin, Health, Edu: the category
   * is the one of the first keyword that occurs in the value, and Government
   * exactly when none does.
   */
  lemma CategoryByFirstKeyword(categoryStr: string)
    ensures CategoryOf(categoryStr) == Agriculture <==> Occurs(categoryStr, "Agri")
    ensures CategoryOf(categoryStr) == Finance <==>
      !Occurs(categoryStr, "Agri") && Occurs(categoryStr, "Fin")
    ensures CategoryOf(categoryStr) == Healthcare <==>
      !Occurs(categoryStr, "Agri") && !Occurs(categoryStr, "Fin") && Occurs(categoryStr, "Health")
    ensures CategoryOf(categoryStr) == Education <==>
      !Occurs(categoryStr, "Agri") && !Occurs(categoryStr, "Fin") && !Occurs(categoryStr, "Health")
      && Occurs(categoryStr, "Edu")
    ensures CategoryOf(categoryStr) == Government <==>
      !Occurs(categoryStr, "Agri") && !Occurs(categoryStr, "Fin") && !Occurs(categoryStr, "Health")
      && !Occurs(categoryStr, "Edu")
  {
    IncludesIffOccurs(categoryStr, "Agri");
    IncludesIffOccurs(categoryStr, "Fin");
    IncludesIffOccurs(categoryStr, "Health");
    IncludesIffOccurs(categoryStr, "Edu");
  }

  /** Every category's own name maps back to it; the default "Government" maps to Government. */
  lemma CategoryNamesMapBack(c: ResourceCategory)
    ensures CategoryOf(CategoryName(c)) == c
  {
    match c
    case Education => EducationMapsBack();
    case Healthcare => HealthcareMapsBack();
    case Finance => FinanceMapsBack();
    case Agriculture => AgricultureMapsBack();
    case Government => GovernmentMapsBack();
  }

  lemma EducationMapsBack()
    ensures CategoryOf("Education") == Education
  {
    assert StartsWith("Education", "Edu");
    EducationLacks("Agri");
    EducationLacks("Fin");
    EducationLacks("Health");
  }

  /** The first letter of each keyword tested before "Edu" does not occur in "Education". */
  lemma EducationLacks(keyword: string)
    requires keyword in ["Agri", "Fin", "Health"]
    ensures !Includes("Education", keyword)
  {
    NotIncluded("Education", keyword);
  }

  lemma HealthcareMapsBack()
    ensures CategoryOf("Healthcare") == Healthcare
  {
    assert StartsWith("Healthcare", "Health");
    HealthcareLacks("Agri");
    HealthcareLacks("Fin");
  }

  /** The first letter of each keyword tested before "Health" does not occur in "Healthcare". */
  lemma HealthcareLacks(keyword: string)
    requires keyword in ["Agri", "Fin"]
    ensures !Includes("Healthcare", keyword)
  {
    NotIncluded("Healthcare", keyword);
  }

  lemma FinanceMapsBack()
    ensures CategoryOf("Finance") == Finance
  {
    assert StartsWith("Finance", "Fin");
    NotIncluded("Finance", "Agri");
  }

  lemma AgricultureMapsBack()
    ensures CategoryOf("Agriculture") == Agriculture
  {
    assert StartsWith("Agriculture", "Agri");
  }

  lemma GovernmentMapsBack()
    ensures CategoryOf("Government") == Government
  {
    GovernmentLacks("Agri");
    GovernmentLacks("Fin");
    GovernmentLacks("Health");
    GovernmentLacks("Edu");
  }

  /** The first letter of each of the four keywords does not occur in "Government". */
  lemma GovernmentLacks(keyword: string)
    requires keyword in ["Agri", "Fin", "Health", "Edu"]
    ensures !Includes("Government", keyword)
  {
    NotIncluded("Government", keyword);
  }

  /** `sub` does not occur in `s` when `s` has no character equal to the first one of `sub`. */
  lemma {:induction false} NotIncluded(s: string, sub: string)
    requires |sub| > 0 && forall i :: 0 <= i < |s| ==> s[i] != sub[0]
    ensures !Includes(s, sub)
  {
    if s != [] {
      NotIncluded(s[1..], sub);
      if |sub| <= |s| {
        assert s[..|sub|][0] != sub[0];
      }
    }
  }

  /** The id of the item built from chunk `index` when the clock read `stamp`. */
  function WebId(stamp: nat, index: nat): string
  {
    "web-" + Decimal(stamp) + "-" + Decimal(index)
  }

  /** Two web ids are equal only when they were built from the same chunk index and time. */
  lemma WebIdInjective(s1: nat, i1: nat, s2: nat, i2: nat)
    ensures WebId(s1, i1) == WebId(s2, i2) ==> s1 == s2 && i1 == i2
  {
    var a, b := WebId(s1, i1), WebId(s2, i2);
    if a == b {
      assert a[4..] == Decimal(s1) + "-" + Decimal(i1);
      assert b[4..] == Decimal(s2) + "-" + Decimal(i2);
      DashJoinInjective(Decimal(s1), Decimal(s2), Decimal(i1), Decimal(i2));
      DecimalInjective(s1, s2);
      DecimalInjective(i1, i2);
    }
  }

  /** A `Link:` value, trimmed, unless it is absent or "NA". */
  function LinkOf(linkMatch: Option<string>): (link: Option<string>)
    ensures linkMatch.None? ==> link.None?
    ensures link.Some? ==> link.value != "NA"
    ensures link.Some? && link.value != [] ==> !IsSpace(link.value[0]) && !IsSpace(link.value[|link.value| - 1])
    ensures linkMatch.Some? && link.None? ==> Trim(linkMatch.value) == "NA"
    ensures link.Some? ==> linkMatch.Some? && link.value == Trim(linkMatch.value)
  {
    if linkMatch.Some? && Trim(linkMatch.value) != "NA" then Some(Trim(linkMatch.value)) else None
  }

  /**
   * The item one chunk yields: present only when both a `Title:` and a
   * `Description:` line match; a web item is idle at 0, not available offline,
   * shown with the Globe icon.
   */
  function ParseChunk(chunk: string, index: nat, stamp: nat): (item: Option<ResourceItem>)
    ensures item.Some? <==> MatchLine(chunk, "Title:", 0).Some? && MatchLine(chunk, "Description:", 0).Some?
    ensures item.Some? ==> item.value.id == WebId(stamp, index)
    ensures item.Some? ==> item.value.icon == "Globe" && !item.value.offlineAvailable
    ensures item.Some? ==> item.value.downloadStatus == Idle && item.value.progress == 0
    ensures item.Some? ==>
      && item.value.title == Trim(MatchLine(chunk, "Title:", 0).value)
      && item.value.description == Trim(MatchLine(chunk, "Description:", 0).value)
      && item.value.link == LinkOf(MatchLine(chunk, "Link:", 0))
    ensures item.Some? && MatchLine(chunk, "Category:", 0).None? ==> item.value.category == Government
    ensures item.Some? && MatchLine(chunk, "Category:", 0).Some? ==>
      item.value.category == CategoryOf(Trim(MatchLine(chunk, "Category:", 0).value))
  {
    GovernmentMapsBack();
    var titleMatch := MatchLine(chunk, "Title:", 0);
    var descMatch := MatchLine(chunk, "Description:", 0);
    if titleMatch.None? || descMatch.None? then None
    else
      var catMatch := MatchLine(chunk, "Category:", 0);
      var categoryStr := if catMatch.Some? then Trim(catMatch.value) else "Government";
      Some(ResourceItem(
        WebId(stamp, index),
        Trim(titleMatch.value),
        Trim(descMatch.value),
        CategoryOf(categoryStr),
        "Globe",
        false,
        Idle,
        0,
        LinkOf(MatchLine(chunk, "Link:", 0))))
  }

  /** What each kept chunk yields; `clock(i)` is the time read while building the item of chunk i. */
  function ChunkResults(chunks: seq<string>, clock: nat -> nat): (found: seq<Option<ResourceItem>>)
    ensures |found| == |chunks|
    ensures forall i :: 0 <= i < |chunks| ==> found[i] == ParseChunk(chunks[i], i, clock(i))
  {
    seq(|chunks|, i requires 0 <= i < |chunks| => ParseChunk(chunks[i], i, clock(i)))
  }

  /** The items that are present, in order. */
  function Collect(found: seq<Option<ResourceItem>>): seq<ResourceItem>
  {
    if found == [] then []
    else
      Collect(found[..|found| - 1]) +
      match found[|found| - 1]
      case None => []
      case Some(item) => [item]
  }

  /** The position in `found` each collected item came from. */
  ghost function Origins(found: seq<Option<ResourceItem>>): seq<nat>
  {
    if found == [] then []
    else Origins(found[..|found| - 1]) + if found[|found| - 1].Some? then [|found| - 1] else []
  }

  /**
   * Each collected item comes from its own position, positions increase, and
   * every present entry is collected.
   */
  lemma {:induction false} CollectOrigins(found: seq<Option<ResourceItem>>)
    ensures var items, o := Collect(found), Origins(found);
      && |o| == |items| <= |found|
      && (forall k :: 0 <= k < |o| ==> o[k] < |found| && found[o[k]] == Some(items[k]))
      && (forall k, l :: 0 <= k < l < |o| ==> o[k] < o[l])
      && (forall i :: 0 <= i < |found| && found[i].Some? ==> i in o)
  {
    if found != [] {
      CollectOrigins(found[..|found| - 1]);
    }
  }

  /** The items of `fetchWebResources` for a list of kept chunks. */
  function ParsedItems(chunks: seq<string>, clock: nat -> nat): seq<ResourceItem>
  {
    Collect(ChunkResults(chunks, clock))
  }

  /**
   * At most one item per kept chunk, in chunk order; every parsed item is idle
   * at 0 with the Globe icon, and no two share an id.
   */
  lemma ParsedItemsWellFormed(chunks: seq<string>, clock: nat -> nat)
    ensures var items := ParsedItems(chunks, clock);
      && |items| <= |chunks|
      && AllItemsOk(items) && UniqueIds(items)
      && (forall k :: 0 <= k < |items| ==> items[k].icon == "Globe" && !items[k].offlineAvailable)
      && (forall k :: 0 <= k < |items| ==> items[k].downloadStatus == Idle && items[k].progress == 0)
      && (forall k :: 0 <= k < |items| ==> IsWebId(items[k].id, clock))
  {
    var found := ChunkResults(chunks, clock);
    var items, o := Collect(found), Origins(found);
    CollectOrigins(found);
    forall k | 0 <= k < |items|
      ensures items[k].id == WebId(clock(o[k]), o[k]) && ItemOk(items[k])
      ensures items[k].downloadStatus == Idle && items[k].progress == 0
    {
      assert ParseChunk(chunks[o[k]], o[k], clock(o[k])) == Some(items[k]);
    }
    forall k, l | 0 <= k < l < |items| ensures items[k].id != items[l].id {
      WebIdInjective(clock(o[k]), o[k], clock(o[l]), o[l]);
    }
  }

  /** `id` is of the form "web-<clock(i)>-<i>" for some chunk index i. */
  ghost predicate IsWebId(id: string, clock: nat -> nat)
  {
    exists i: nat :: id == WebId(clock(i), i)
  }

  /** The body of the `forEach` callback for one chunk: the item it pushes, if any. */
  method ParseChunkBody(chunk: string, index: nat, stamp: nat) returns (item: Option<ResourceItem>)
    ensures item == ParseChunk(chunk, index, stamp)
  {
    var titleMatch := MatchLine(chunk, "Title:", 0);
    var descMatch := MatchLine(chunk, "Description:", 0);
    var catMatch := MatchLine(chunk, "Category:", 0);
    var linkMatch := MatchLine(chunk, "Link:", 0);
    if titleMatch.None? || descMatch.None? {
      return None;
    }
    var categoryStr := if catMatch.Some? then Trim(catMatch.value) else "Government";
    var category := Government;
    if Includes(categoryStr, "Agri") {
      category := Agriculture;
    } else if Includes(categoryStr, "Fin") {
      category := Finance;
    } else if Includes(categoryStr, "Health") {
      category := Healthcare;
    } else if Includes(categoryStr, "Edu") {
      category := Education;
    }
    item := Some(ResourceItem(WebId(stamp, index), Trim(titleMatch.value), Trim(descMatch.value),
                              category, "Globe", false, Idle, 0, LinkOf(linkMatch)));
  }

  /** The `forEach` over the kept chunks, pushing the item of each chunk that yields one. */
  method ParseChunks(chunks: seq<string>, clock: nat -> nat) returns (items: seq<ResourceItem>)
    ensures items == ParsedItems(chunks, clock)
  {
    ghost var found := ChunkResults(chunks, clock);
    items := [];
    var index := 0;
    while index < |chunks|
      invariant 0 <= index <= |chunks|
      invariant items == Collect(found[..index])
    {
      var item := ParseChunkBody(chunks[index], index, clock(index));
      assert found[index] == item;
      assert found[..index + 1][..index] == found[..index];
      if item.Some? {
        items := items + [item.value];
      }
      index := index + 1;
    }
    assert found[..index] == found;
  }

  /** The items a search response yields: none for an absent or empty text. */
  function Discovered(text: Option<string>, clock: nat -> nat): seq<ResourceItem>
  {
    if text.None? || text.value == [] then [] else ParsedItems(KeptChunks(text.value), clock)
  }

  /**
   * The parsing body of `fetchWebResources`: no text gives no items; otherwise
   * the kept chunks are parsed one by one, in order.
   */
  method ParseWebResources(text: Option<string>, clock: nat -> nat) returns (items: seq<ResourceItem>)
    ensures items == Discovered(text, clock)
    ensures text.None? || text.value == [] ==> items == []
    ensures text.Some? && text.value != [] ==> items == ParsedItems(KeptChunks(text.value), clock)
    ensures text.Some? ==> |items| <= |KeptChunks(text.value)|
    ensures AllItemsOk(items) && UniqueIds(items)
    ensures forall k :: 0 <= k < |items| ==> items[k].icon == "Globe" && !items[k].offlineAvailable
    ensures forall k :: 0 <= k < |items| ==> items[k].downloadStatus == Idle && items[k].progress == 0
    ensures forall k :: 0 <= k < |items| ==> IsWebId(items[k].id, clock)
  {
    if text.None? || text.value == [] {
      return [];
    }
    var chunks := KeptChunks(text.value);
    items := ParseChunks(chunks, clock);
    ParsedItemsWellFormed(chunks, clock);
  }
}
