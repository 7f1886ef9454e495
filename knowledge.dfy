/**
 * The knowledge base the chat endpoint retrieves from, loaded once at
 * start-up: two parallel lists, document texts and document names.
 * Reading the directory is outside the model; its sorted listing of
 * `*.txt` files, each with its stem and its contents, is the input.
 */
module Knowledge {

  /** One `*.txt` file of the knowledge directory: its stem and what it holds. */
  datatype TextFile = TextFile(stem: string, text: string)

  datatype KnowledgeBase = KnowledgeBase(docs: seq<string>, names: seq<string>)
  {
    /** Every index names one document, and there is at least one. */
    predicate Valid()
    {
      |docs| == |names| > 0
    }
  }

  /** The placeholder document that stands in for an empty or missing directory. */
  const PlaceholderText: string := "No knowledge base available."
  const PlaceholderName: string := "knowledge"

  /**
   * Walks the listing in order, appending each stem to the names and each
   * text to the documents; if no document was read, both lists are replaced
   * by the single placeholder.
   */
  method Load(dirExists: bool, listing: seq<TextFile>) returns (kb: KnowledgeBase)
    ensures kb.Valid()
    ensures dirExists && listing != [] ==>
      |kb.docs| == |listing| &&
      forall i :: 0 <= i < |listing| ==> kb.names[i] == listing[i].stem && kb.docs[i] == listing[i].text
    ensures !(dirExists && listing != []) ==>
      kb.docs == [PlaceholderText] && kb.names == [PlaceholderName]
  {
    var docs: seq<string> := [];
    var names: seq<string> := [];
    if dirExists {
      var i := 0;
      while i < |listing|
        invariant 0 <= i <= |listing|
        invariant |docs| == |names| == i
        invariant forall j :: 0 <= j < i ==> names[j] == listing[j].stem && docs[j] == listing[j].text
      {
        names := names + [listing[i].stem];
        docs := docs + [listing[i].text];
        i := i + 1;
      }
    }
    if docs == [] {
      docs := [PlaceholderText];
      names := [PlaceholderName];
    }
    kb := KnowledgeBase(docs, names);
  }
}
