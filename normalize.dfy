/**
 * The text normaliser of `erzeuge_embeddings`: every listing of the Social
 * Map dataset becomes one corpus text, its title and its German description
 * joined by a newline.
 */
module Normalize {
  import opened Common

  /**
   * One listing of the dataset, reduced to the two keys the normaliser reads.
   * A key missing from the JSON object is `None`; `description` maps a
   * two-letter language code to the text in that language.
   */
  datatype Item = Item(title: Option<string>, description: Option<map<string, string>>)

  /** `eintrag.get("title", "")` */
  function Title(item: Item): (t: string)
    ensures item.title.Some? ==> t == item.title.value
    ensures item.title.None? ==> t == ""
  {
    item.title.GetOr("")
  }

  /** `eintrag.get("description", {}).get("de", "")` */
  function GermanDescription(item: Item): (d: string)
    ensures item.description.Some? && "de" in item.description.value ==> d == item.description.value["de"]
    ensures item.description.None? || "de" !in item.description.value ==> d == ""
  {
    var byLanguage := item.description.GetOr(map[]);
    if "de" in byLanguage then byLanguage["de"] else ""
  }

  /** The corpus text of one listing: title, newline, German description. */
  function CorpusText(item: Item): (text: string)
    ensures Title(item) <= text && |text| > |Title(item)| && text[|Title(item)|] == '\n'
    ensures '\n' in text
  {
    Title(item) + "\n" + GermanDescription(item)
  }

  /** The corpus texts of all listings: one per listing, in listing order. */
  function NormalizedTexts(items: seq<Item>): (texts: seq<string>)
    ensures |texts| == |items|
    ensures forall i :: 0 <= i < |items| ==> texts[i] == CorpusText(items[i])
  {
    if items == [] then [] else [CorpusText(items[0])] + NormalizedTexts(items[1..])
  }

  /**
   * The loop that fills `texte` and `all_texts`: both lists receive the
   * corpus text of every listing, in listing order.
   */
  method CollectTexts(items: seq<Item>) returns (texte: seq<string>, allTexts: seq<string>)
    ensures texte == NormalizedTexts(items)
    ensures allTexts == NormalizedTexts(items)
  {
    texte, allTexts := [], [];
    for k := 0 to |items|
      invariant |texte| == k && |allTexts| == k
      invariant forall j :: 0 <= j < k ==> texte[j] == CorpusText(items[j]) && allTexts[j] == texte[j]
    {
      var text := CorpusText(items[k]);
      texte := texte + [text];
      allTexts := allTexts + [text];
    }
  }

  /**
   * A title without a newline is the first line of the corpus text, and the
   * German description is everything after it: the two fields can be read
   * back from the joined text.
   */
  lemma CorpusTextSplitsBack(item: Item)
    requires '\n' !in Title(item)
    ensures SplitAtNewline(CorpusText(item)) == Some((Title(item), GermanDescription(item)))
  {
    SplitAfterLine(Title(item), GermanDescription(item));
  }

  /**
   * The defaults: a missing title leaves the text starting with the newline;
   * a missing description, or one without a German entry, leaves it ending
   * with the newline; a listing with neither is the bare newline.
   */
  lemma CorpusTextDefaults(item: Item)
    ensures item.title.None? ==> CorpusText(item) == "\n" + GermanDescription(item)
    ensures item.description.None? ==> CorpusText(item) == Title(item) + "\n"
    ensures item.description.Some? && "de" !in item.description.value ==> CorpusText(item) == Title(item) + "\n"
    ensures item.title.None? && item.description.None? ==> CorpusText(item) == "\n"
    ensures item.title.Some? && item.description.Some? && "de" in item.description.value ==>
      CorpusText(item) == item.title.value + "\n" + item.description.value["de"]
  {
  }
}
