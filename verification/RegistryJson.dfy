/** The bodies of listings (src/server.rs lines 243-248 and 276-282) are JSON:
    the crate's own parser accepts them, and reads back the names of the page. */
module RegistryJson {
  import opened Numbers
  import opened Results
  import opened JsonText
  import opened JsonGrammar
  import opened JsonTrees
  import opened Utf8Text
  import JsonParser
  import JsonValues
  import RegistryPages

  /** "repositories", "name" and "tags" */
  const REPOSITORIES: seq<u8> := [0x72, 0x65, 0x70, 0x6f, 0x73, 0x69, 0x74, 0x6f, 0x72, 0x69, 0x65, 0x73]
  const NAME: seq<u8> := [0x6e, 0x61, 0x6d, 0x65]
  const TAGS: seq<u8> := [0x74, 0x61, 0x67, 0x73]

  /** How a listing begins: the catalog, or the tags of a repository. */
  function Prefix(repository: Option<seq<u8>>): seq<u8>
  {
    match repository
    case None => [OBJECT_BEGIN, QUOTE] + REPOSITORIES + [QUOTE, COLON, ARRAY_BEGIN]
    case Some(name) =>
      [OBJECT_BEGIN, QUOTE] + NAME + [QUOTE, COLON, QUOTE] + name + [QUOTE, COMMA, QUOTE] + TAGS
          + [QUOTE, COLON, ARRAY_BEGIN]
  }

  /** Names in OCI grammar are printable ASCII without quotes or backslashes. */
  predicate PlainName(name: seq<u8>)
  {
    forall k :: 0 <= k < |name| ==> 0x20 <= name[k] < 0x80 && name[k] != QUOTE && name[k] != BACKSLASH
  }

  predicate PlainNames(page: seq<seq<u8>>)
  {
    forall k :: 0 <= k < |page| ==> PlainName(page[k])
  }

  function PlainText(name: seq<u8>): (characters: seq<Character>)
    ensures |characters| == |name|
  {
    if name == [] then [] else [Plain(name[0])] + PlainText(name[1..])
  }

  function NameTree(name: seq<u8>): Tree
  {
    Leaf(Text(PlainText(name)))
  }

  function NameMembers(page: seq<seq<u8>>): Members
  {
    if page == [] then End else More([], [], None, NameTree(page[0]), NameMembers(page[1..]))
  }

  function Field(name: seq<u8>, value: Tree, later: Members): Members
  {
    More([], [], Some(Key(PlainText(name), [], [])), value, later)
  }

  /** The document that a listing is. */
  function ListingTree(repository: Option<seq<u8>>, page: seq<seq<u8>>): Tree
  {
    var list := Box(ARRAY_END, NameMembers(page), []);
    Box(OBJECT_END,
        match repository
        case None => Field(REPOSITORIES, list, End)
        case Some(name) => Field(NAME, NameTree(name), Field(TAGS, list, End)),
        [])
  }

  // ----- plain text

  lemma {:induction false} PlainIsValid(name: seq<u8>)
    requires PlainName(name)
    ensures ValidText(PlainText(name)) && JsonValues.Encoded(PlainText(name)) == name
  {
    if name != [] {
      assert forall k :: 0 <= k < |name[1..]| ==> name[1..][k] == name[k + 1];
      PlainIsValid(name[1..]);
      var text := PlainText(name);
      assert text[0] == Plain(name[0]) && text[1..] == PlainText(name[1..]);
      assert forall k :: 1 <= k < |text| ==> text[k] == text[1..][k - 1];
      assert name == [name[0]] + name[1..];
    }
  }

  lemma PlainPrints(name: seq<u8>, tail: seq<u8>)
    requires PlainName(name)
    ensures PrintString(PlainText(name), tail) == [QUOTE] + name + [QUOTE] + tail
  {
    hide PrintCharacters, JsonValues.Encoded;
    PlainIsValid(name);
    JsonValues.EncodedInFront(PlainText(name), tail);
    assert [QUOTE] + (name + ([QUOTE] + tail)) == [QUOTE] + name + [QUOTE] + tail;
  }

  lemma KeyPrints(name: seq<u8>, tail: seq<u8>)
    requires PlainName(name)
    ensures PrintKey(Key(PlainText(name), [], []), tail) == [QUOTE] + name + [QUOTE] + ([COLON] + tail)
  {
    hide PrintString;
    PlainPrints(name, [COLON] + tail);
    assert [] + ([COLON] + ([] + tail)) == [COLON] + tail;
  }

  // ----- lists of names

  lemma {:induction false} QuotedFront(name: seq<u8>, rest: seq<seq<u8>>)
    ensures RegistryPages.Quoted([name] + rest) ==
      ([QUOTE] + name + [QUOTE]) + (if rest == [] then [] else [COMMA] + RegistryPages.Quoted(rest))
  {
    var all := [name] + rest;
    if rest == [] {
      assert all == [name] && all[..0] == [];
      assert RegistryPages.Quoted([]) == [];
      assert [] + [] + ([QUOTE] + name + [QUOTE]) == ([QUOTE] + name + [QUOTE]) + [];
    } else {
      var front, last := rest[..|rest| - 1], rest[|rest| - 1];
      assert all[..|all| - 1] == [name] + front && all[|all| - 1] == last;
      QuotedFront(name, front);
      if front == [] {
        assert RegistryPages.Quoted(rest) == RegistryPages.Quoted(front) + [] + ([QUOTE] + last + [QUOTE]);
        assert ([QUOTE] + name + [QUOTE]) + [] + [COMMA] + ([QUOTE] + last + [QUOTE])
            == ([QUOTE] + name + [QUOTE]) + ([COMMA] + ([] + [] + ([QUOTE] + last + [QUOTE])));
      } else {
        Shift([QUOTE] + name + [QUOTE], [COMMA], RegistryPages.Quoted(front), [COMMA], [QUOTE] + last + [QUOTE]);
      }
    }
  }

  lemma Shift(a: seq<u8>, b: seq<u8>, c: seq<u8>, d: seq<u8>, e: seq<u8>)
    ensures (a + (b + c)) + d + e == a + (b + (c + d + e))
  {
  }

  lemma {:induction false} NamesPrint(page: seq<seq<u8>>, first: bool, tail: seq<u8>)
    requires PlainNames(page)
    ensures PrintMembers(NameMembers(page), first, tail) ==
      (if page == [] || first then [] else [COMMA]) + (RegistryPages.Quoted(page) + tail)
  {
    hide PrintTree, RegistryPages.Quoted;
    if page == [] {
      NothingQuoted();
      assert [] + ([] + tail) == tail;
    } else {
      var rest := page[1..];
      assert page == [page[0]] + rest && PlainName(page[0]);
      assert forall k :: 0 <= k < |rest| ==> rest[k] == page[k + 1];
      NamesPrint(rest, false, tail);
      QuotedFront(page[0], rest);
      var later := PrintMembers(NameMembers(rest), false, tail);
      NamePrints(page[0], later);
      var quoted := [QUOTE] + page[0] + [QUOTE];
      var item := PrintTree(NameTree(page[0]), later);
      assert item == quoted + later;
      assert [] + item == item;
      assert later == (if rest == [] then [] else [COMMA]) + (RegistryPages.Quoted(rest) + tail);
      if rest == [] {
        NothingQuoted();
        assert quoted + ([] + ([] + tail)) == (quoted + []) + tail;
      } else {
        assert quoted + ([COMMA] + (RegistryPages.Quoted(rest) + tail))
            == (quoted + ([COMMA] + RegistryPages.Quoted(rest))) + tail;
      }
      assert item == RegistryPages.Quoted(page) + tail;
      if !first {
        assert [] + ([COMMA] + ([] + item)) == [COMMA] + item;
      }
    }
  }

  lemma NothingQuoted()
    ensures RegistryPages.Quoted([]) == []
  {
  }

  lemma NamePrints(name: seq<u8>, tail: seq<u8>)
    requires PlainName(name)
    ensures PrintTree(NameTree(name), tail) == [QUOTE] + name + [QUOTE] + tail
  {
    hide PrintString;
    PlainPrints(name, tail);
  }

  lemma {:induction false} NamesAreValid(page: seq<seq<u8>>, first: bool)
    requires PlainNames(page)
    ensures ValidMembers(NameMembers(page), ARRAY_END, first) && MembersHeight(NameMembers(page)) <= 1
  {
    if page != [] {
      assert PlainName(page[0]);
      assert forall k :: 0 <= k < |page[1..]| ==> page[1..][k] == page[k + 1];
      PlainIsValid(page[0]);
      NamesAreValid(page[1..], false);
    }
  }

  // ----- the whole body

  lemma FieldPrints(name: seq<u8>, value: Tree, later: Members, first: bool, tail: seq<u8>)
    requires PlainName(name)
    ensures PrintMembers(Field(name, value, later), first, tail) ==
      (if first then [] else [COMMA])
          + ([QUOTE] + name + [QUOTE] + ([COLON] + PrintTree(value, PrintMembers(later, false, tail))))
  {
    hide PrintKey, PrintTree;
    var item := PrintTree(value, PrintMembers(later, false, tail));
    KeyPrints(name, item);
    var keyed := PrintKey(Key(PlainText(name), [], []), item);
    assert [] + keyed == keyed && [] + ([COMMA] + keyed) == [COMMA] + keyed;
  }

  lemma KeysArePlain()
    ensures PlainName(REPOSITORIES) && PlainName(NAME) && PlainName(TAGS)
  {
  }

  lemma ListPrints(page: seq<seq<u8>>, tail: seq<u8>)
    requires PlainNames(page)
    ensures PrintTree(Box(ARRAY_END, NameMembers(page), []), tail)
        == [ARRAY_BEGIN] + (RegistryPages.Quoted(page) + ([ARRAY_END] + tail))
  {
    hide PrintMembers, RegistryPages.Quoted;
    NamesPrint(page, true, [ARRAY_END] + tail);
    assert [] + ([ARRAY_END] + tail) == [ARRAY_END] + tail;
    assert [] + (RegistryPages.Quoted(page) + ([ARRAY_END] + tail))
        == RegistryPages.Quoted(page) + ([ARRAY_END] + tail);
  }

  /** The body is the text of the tree. */
  lemma ListingPrints(repository: Option<seq<u8>>, page: seq<seq<u8>>)
    requires PlainNames(page) && (repository.Some? ==> PlainName(repository.value))
    ensures PrintTree(ListingTree(repository, page), []) == RegistryPages.PageText(Prefix(repository), page)
  {
    hide PrintMembers, RegistryPages.Quoted, REPOSITORIES, NAME, TAGS, PlainText, NameMembers;
    KeysArePlain();
    var quoted := RegistryPages.Quoted(page);
    var end: seq<u8> := [] + ([OBJECT_END] + []);
    assert end == [OBJECT_END];
    NoMembers(end);
    ListPrints(page, end);
    var list := Box(ARRAY_END, NameMembers(page), []);
    match repository
    case None =>
      FieldPrints(REPOSITORIES, list, End, true, end);
      CatalogShape(quoted);
    case Some(name) =>
      var tags := Field(TAGS, list, End);
      FieldPrints(TAGS, list, End, false, end);
      NamePrints(name, PrintMembers(tags, false, end));
      FieldPrints(NAME, NameTree(name), tags, true, end);
      TagsShape(name, quoted);
  }

  lemma NoMembers(tail: seq<u8>)
    ensures PrintMembers(End, false, tail) == tail
  {
  }

  lemma CatalogShape(quoted: seq<u8>)
    ensures [OBJECT_BEGIN]
        + ([] + ([QUOTE] + REPOSITORIES + [QUOTE]
        + ([COLON] + ([ARRAY_BEGIN] + (quoted + ([ARRAY_END] + [OBJECT_END]))))))
         == Prefix(None) + quoted + [ARRAY_END, OBJECT_END]
  {
    hide REPOSITORIES;
  }

  lemma TagsShape(name: seq<u8>, quoted: seq<u8>)
    ensures
      var tags :=
          [COMMA] + ([QUOTE] + TAGS + [QUOTE] + ([COLON] + ([ARRAY_BEGIN] + (quoted + ([ARRAY_END] + [OBJECT_END])))));
      [OBJECT_BEGIN] + ([] + ([QUOTE] + NAME + [QUOTE] + ([COLON] + ([QUOTE] + name + [QUOTE] + tags))))
        == Prefix(Some(name)) + quoted + [ARRAY_END, OBJECT_END]
  {
    hide NAME, TAGS;
    var end := quoted + ([ARRAY_END] + [OBJECT_END]);
    var tags := [COMMA] + ([QUOTE] + TAGS + [QUOTE] + ([COLON] + ([ARRAY_BEGIN] + end)));
    TagsBack(TAGS, end);
    TagsFront(NAME, name, tags);
    TagsJoin([OBJECT_BEGIN, QUOTE] + NAME + [QUOTE, COLON, QUOTE] + name, TAGS, quoted);
  }

  lemma TagsBack(tags: seq<u8>, end: seq<u8>)
    ensures [COMMA] + ([QUOTE] + tags + [QUOTE] + ([COLON] + ([ARRAY_BEGIN] + end)))
         == ([COMMA, QUOTE] + tags + [QUOTE, COLON, ARRAY_BEGIN]) + end
  {
  }

  lemma TagsFront(field: seq<u8>, name: seq<u8>, tail: seq<u8>)
    ensures [OBJECT_BEGIN] + ([] + ([QUOTE] + field + [QUOTE] + ([COLON] + ([QUOTE] + name + [QUOTE] + tail))))
         == ([OBJECT_BEGIN, QUOTE] + field + [QUOTE, COLON, QUOTE] + name) + ([QUOTE] + tail)
  {
  }

  lemma TagsJoin(front: seq<u8>, tags: seq<u8>, quoted: seq<u8>)
    ensures front + ([QUOTE]
        + (([COMMA, QUOTE] + tags + [QUOTE, COLON, ARRAY_BEGIN]) + (quoted + ([ARRAY_END] + [OBJECT_END]))))
         == front + [QUOTE, COMMA, QUOTE] + tags + [QUOTE, COLON, ARRAY_BEGIN] + quoted + [ARRAY_END, OBJECT_END]
  {
  }

  lemma FieldIsValid(name: seq<u8>, value: Tree, later: Members, first: bool)
    requires PlainName(name) && ValidTree(value) && Height(value) <= 1
    requires ValidMembers(later, OBJECT_END, false) && MembersHeight(later) <= 2
    ensures ValidMembers(Field(name, value, later), OBJECT_END, first) && MembersHeight(Field(name, value, later)) <= 2
  {
    hide PlainText, ValidTree;
    PlainIsValid(name);
  }

  lemma ListingIsValid(repository: Option<seq<u8>>, page: seq<seq<u8>>)
    requires PlainNames(page) && (repository.Some? ==> PlainName(repository.value))
    ensures ValidTree(ListingTree(repository, page)) && Height(ListingTree(repository, page)) <= 2
  {
    hide REPOSITORIES, NAME, TAGS, PlainText, NameMembers, Field, ValidText;
    KeysArePlain();
    NamesAreValid(page, true);
    var list := Box(ARRAY_END, NameMembers(page), []);
    match repository
    case None => FieldIsValid(REPOSITORIES, list, End, true);
    case Some(name) =>
      PlainIsValid(name);
      FieldIsValid(TAGS, list, End, false);
      FieldIsValid(NAME, NameTree(name), Field(TAGS, list, End), true);
  }

  /** Every listing body is a JSON document. */
  lemma ListingIsJson(repository: Option<seq<u8>>, page: seq<seq<u8>>)
    requires PlainNames(page) && (repository.Some? ==> PlainName(repository.value))
    ensures
      var body := RegistryPages.PageText(Prefix(repository), page);
      IsDocument(body, [], ListingTree(repository, page), []) && DocumentBounds(body) == Ok((0, |body|))
  {
    hide PrintTree, ListingTree, RegistryPages.PageText, Prefix, ValidTree, Height;
    ListingPrints(repository, page);
    ListingIsValid(repository, page);
    var body := RegistryPages.PageText(Prefix(repository), page);
    assert [] + body == body;
    DocumentAccepted(body, [], ListingTree(repository, page), []);
  }

  /** The names of the page, as a client reads them from the list. */
  lemma {:induction false} NamesReadBack(page: seq<seq<u8>>)
    requires PlainNames(page)
    ensures |JsonValues.ItemsOf(NameMembers(page))| == |page|
    ensures forall k :: 0 <= k < |page| ==>
              JsonParser.StringValue(JsonValues.ItemsOf(NameMembers(page))[k].value)
                  == Ok(JsonParser.JsonString(page[k], false))
  {
    hide PrintTree, PlainText, JsonParser.StringValue;
    if page != [] {
      assert PlainName(page[0]);
      assert forall k :: 0 <= k < |page[1..]| ==> page[1..][k] == page[k + 1];
      NamesReadBack(page[1..]);
      NamePrints(page[0], []);
      QuotedReads(page[0]);
      var items := JsonValues.ItemsOf(NameMembers(page));
      assert items == [items[0]] + JsonValues.ItemsOf(NameMembers(page[1..]));
      assert forall k :: 1 <= k < |items| ==> items[k] == JsonValues.ItemsOf(NameMembers(page[1..]))[k - 1];
    }
  }

  lemma QuotedReads(name: seq<u8>)
    requires PlainName(name)
    ensures JsonParser.StringValue([QUOTE] + name + [QUOTE] + []) == Ok(JsonParser.JsonString(name, false))
  {
    var text := [QUOTE] + name + [QUOTE] + [];
    assert text[1..|text| - 1] == name;
  }

  // ----- a client

  /** The bytes of a listing are ASCII. */
  lemma ListingIsUtf8(repository: Option<seq<u8>>, page: seq<seq<u8>>)
    requires PlainNames(page) && (repository.Some? ==> PlainName(repository.value))
    ensures IsUtf8(RegistryPages.PageText(Prefix(repository), page))
  {
    hide IsUtf8, Prefix, RegistryPages.Quoted;
    var text := RegistryPages.PageText(Prefix(repository), page);
    QuotedIsAscii(page);
    PrefixIsAscii(repository);
    assert forall b :: b in text ==> b < 0x80;
    assert forall k :: 0 <= k < |text| ==> text[k] in text;
    AsciiIsUtf8(text);
  }

  lemma PrefixIsAscii(repository: Option<seq<u8>>)
    requires repository.Some? ==> PlainName(repository.value)
    ensures forall b :: b in Prefix(repository) ==> b < 0x80
  {
    hide REPOSITORIES, NAME, TAGS;
    KeysArePlain();
  }

  lemma {:induction false} QuotedIsAscii(page: seq<seq<u8>>)
    requires PlainNames(page)
    ensures forall b :: b in RegistryPages.Quoted(page) ==> b < 0x80
  {
    if page != [] {
      assert PlainName(page[|page| - 1]);
      QuotedIsAscii(page[..|page| - 1]);
    }
  }

  lemma {:induction false} PlainDecodes(name: seq<u8>)
    requires PlainName(name)
    ensures ValidText(PlainText(name)) && JsonValues.Decoded(PlainText(name)) == name
  {
    PlainIsValid(name);
    if name != [] {
      assert forall k :: 0 <= k < |name[1..]| ==> name[1..][k] == name[k + 1];
      PlainDecodes(name[1..]);
      assert PlainText(name)[1..] == PlainText(name[1..]) && name == [name[0]] + name[1..];
    }
  }

  /** The field with the names. */
  function ListField(repository: Option<seq<u8>>): seq<u8>
  {
    if repository.Some? then TAGS else REPOSITORIES
  }

  lemma FieldNamed(field: seq<u8>, value: Tree, later: Members, wanted: seq<u8>, first: bool)
    requires PlainName(field) && JsonValues.IsAscii(wanted) && ValidMembers(later, OBJECT_END, false)
    requires ValidMembers(Field(field, value, later), OBJECT_END, first)
    ensures JsonValues.Named(Field(field, value, later), wanted) ==
      (if field == wanted then [JsonValues.TreeText(value)] else []) + JsonValues.Named(later, wanted)
  {
    hide JsonValues.Decoded, PlainText, JsonValues.IsAscii, ValidTree, JsonValues.TreeText, ValidText;
    PlainDecodes(field);
  }

  /** It is there exactly once. */
  lemma ListIsNamed(repository: Option<seq<u8>>, page: seq<seq<u8>>)
    requires PlainNames(page) && (repository.Some? ==> PlainName(repository.value))
    ensures ValidTree(ListingTree(repository, page)) && Height(ListingTree(repository, page)) <= MAX_DEPTH
    ensures JsonValues.Named(ListingTree(repository, page).members, ListField(repository))
         == [JsonValues.TreeText(Box(ARRAY_END, NameMembers(page), []))]
  {
    hide REPOSITORIES, NAME, TAGS, NameMembers, Field, PlainText, ValidText, JsonValues.TreeText, PlainName,
        JsonValues.IsAscii;
    ListingIsValid(repository, page);
    KeysArePlain();
    KeysDiffer();
    NamesAreValid(page, true);
    NoneNamed(ListField(repository));
    var list := Box(ARRAY_END, NameMembers(page), []);
    match repository
    case None => FieldNamed(REPOSITORIES, list, End, REPOSITORIES, true);
    case Some(name) =>
      PlainIsValid(name);
      FieldIsValid(TAGS, list, End, false);
      FieldNamed(TAGS, list, End, TAGS, false);
      FieldNamed(NAME, NameTree(name), Field(TAGS, list, End), TAGS, true);
  }

  lemma KeysDiffer()
    ensures NAME != TAGS && JsonValues.IsAscii(TAGS) && JsonValues.IsAscii(REPOSITORIES)
  {
  }

  lemma NoneNamed(wanted: seq<u8>)
    ensures JsonValues.Named(End, wanted) == []
  {
  }

  /** From the bytes of a body: the document, its list, and the text of every name. No step fails, and the names
      are those of the page. */
  method ReadListing(body: seq<u8>, ghost repository: Option<seq<u8>>, field: seq<u8>, ghost page: seq<seq<u8>>)
    returns (names: seq<seq<u8>>)
    requires PlainNames(page) && (repository.Some? ==> PlainName(repository.value)) && field == ListField(repository)
    requires body == RegistryPages.PageText(Prefix(repository), page)
    ensures names == page
  {
    hide IsUtf8, ValidTree, Height, PrintTree, ListingTree, JsonValues.TreeText, JsonValues.ItemsOf, JsonValues.Named,
        NameMembers, RegistryPages.PageText, Prefix, DocumentBounds, JsonParser.StringValue, PlainName;
    ListingIsUtf8(repository, page);
    ListingIsJson(repository, page);
    var document := JsonValues.ParseDocument(body);
    assert body[0..|body|] == body;
    ListingPrints(repository, page);
    TreeTextIs(ListingTree(repository, page));
    ListIsNamed(repository, page);
    ListingIsObject(repository, page);
    var found := JsonValues.Get(document.value, field, ListingTree(repository, page));
    NamesListed(page);
    var items := JsonValues.Items(found.value.value, ARRAY_END, Box(ARRAY_END, NameMembers(page), []));
    NamesReadBack(page);
    names := [];
    for k := 0 to |items.value|
      invariant names == page[..k]
    {
      names := names + [JsonParser.StringValue(items.value[k].value).value.encoded];
    }
    assert page[..|page|] == page;
  }

  lemma TreeTextIs(t: Tree)
    ensures JsonValues.TreeText(t) == PrintTree(t, [])
  {
  }

  lemma ListingIsObject(repository: Option<seq<u8>>, page: seq<seq<u8>>)
    ensures ListingTree(repository, page).Box? && ListingTree(repository, page).closing == OBJECT_END
  {
  }

  lemma NamesListed(page: seq<seq<u8>>)
    requires PlainNames(page)
    ensures ValidTree(Box(ARRAY_END, NameMembers(page), []))
        && Height(Box(ARRAY_END, NameMembers(page), [])) <= MAX_DEPTH
  {
    hide NameMembers;
    NamesAreValid(page, true);
  }
}
