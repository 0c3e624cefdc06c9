/** The keys a layer store renders from hashes and checked names, as the backends see them. */
module StoreKeys {
  import opened Basics
  import opened Hex
  import LayerStore
  import MetaKeys
  import LayerStoreObject
  import FileBackend

  /** The namespace and name under which the backends see a key. */
  function Rendered(key: LayerStore.Key): MetaKeys.MetaKey {
    MetaKeys.MetaKey(LayerStoreObject.NamespaceOf(key), LayerStoreObject.NameOf(key))
  }

  /** The strings the layer store builds. */
  lemma RenderedText(key: LayerStore.Key)
    ensures MetaKeys.Render(Rendered(key)) == match key
      case LayerKey(c) => "layers/" + ToText(c)
      case IndexKey(i) => "index/" + ToText(i)
      case ManifestKey(h) => "manifests/" + ToText(h)
      case TagKey(name) => "tags/" + name
      case BuildKey(id) => "builds/" + id
  {
  }

  lemma {:induction false} RenderedInjective(a: LayerStore.Key, b: LayerStore.Key)
    requires MetaKeys.Render(Rendered(a)) == MetaKeys.Render(Rendered(b))
    ensures a == b
  {
    FileBackend.RenderInjective(Rendered(a), Rendered(b));
    LayerStoreObject.KeyByName(a, b);
  }

  lemma {:induction false} HexIsPlain(h: Hash)
    ensures FileBackend.Plain(ToText(h)) && !FileBackend.EndsWith(ToText(h), FileBackend.JSON)
  {
    EncodedDigits(h);
    var s := ToText(h);
    assert |s| == 64 && s[59] in DIGITS && s[59..][0] == s[59];
  }

  /**
   * Hash-named keys and accepted tag names are single path components; a tag's file is
   * listed under its own name exactly when the name does not end in ".json".
   */
  lemma {:induction false} StoreKeysArePlain(key: LayerStore.Key)
    requires key.TagKey? ==> LayerStore.IsTagName(key.tag)
    requires key.BuildKey? ==> FileBackend.Plain(key.id)
    ensures FileBackend.Plain(Rendered(key).name)
    ensures FileBackend.Shortened(Rendered(key)) <==> key.TagKey? && FileBackend.EndsWith(key.tag, FileBackend.JSON)
  {
    match key
    case LayerKey(c) => HexIsPlain(c);
    case IndexKey(i) => HexIsPlain(i);
    case ManifestKey(h) => HexIsPlain(h);
    case TagKey(name) => assert name != "." && name != "..";
    case BuildKey(_) =>
  }

  /** An accepted tag name for which the two backends give different listings. */
  lemma {:induction false} JsonTagIsMislisted(value: seq<byte>, tmp: string)
    ensures LayerStore.IsTagName("a.json")
    ensures var key := MetaKeys.Render(Rendered(LayerStore.TagKey("a.json")));
            var files, mem := FileBackend.Put(map[], key, value, tmp), map[key := value];
            && FileBackend.Represents(files, mem)
            && FileBackend.Listed(files, MetaKeys.Tags) != FileBackend.MemoryListed(mem, MetaKeys.Tags)
  {
    hide FileBackend.Put, FileBackend.Listed, FileBackend.MemoryListed, FileBackend.Represents;
    var key := Rendered(LayerStore.TagKey("a.json"));
    var text := MetaKeys.Render(key);
    var files, mem: FileBackend.Memory := FileBackend.Put(map[], text, value, tmp), map[text := value];
    FileBackend.FreshBackend();
    StoreKeysArePlain(LayerStore.TagKey("a.json"));
    FileBackend.PutRefines(map[], map[], key, value, tmp);
    assert FileBackend.EndsWith(key.name, FileBackend.JSON);
    FileBackend.ListRefinesExactlyWhen(files, mem, MetaKeys.Tags);
  }
}
