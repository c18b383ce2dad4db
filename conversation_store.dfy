/** The application store: one record of conversation state whose fields the action
    methods replace (`src/store/useConversationStore.js`).  An argument left
    `undefined` is passed as `Null`: every action treats the two alike. */
module ConversationStore {
  import opened Json

  /** `Array.isArray(words) ? words : []`. */
  function ArrayItems(words: Json): (r: seq<Json>)
    ensures words.Arr? ==> r == words.items
    ensures !words.Arr? ==> r == []
  {
    if words.Arr? then words.items else []
  }

  /** `items || []`: a truthy value is kept as it is, a falsy one becomes `[]`. */
  function OrEmpty(items: Json): (r: Json)
    ensures Truthy(r)
    ensures Truthy(items) ==> r == items
  {
    if Truthy(items) then items else Arr([])
  }

  /** One of the four sample words `loadSampleVocabulary` installs. */
  function SampleWord(hanzi: string, pinyin: string, english: string): Json {
    Obj([("hanzi", Str(hanzi)), ("pinyin", Str(pinyin)), ("english", Str(english))])
  }

  const SampleVocabulary: seq<Json> := [
    SampleWord("你好", "nǐ hǎo", "hello"),
    SampleWord("我叫华语巴迪", "wǒ jiào huáyǔ bā dí", "my name is Huayu Buddy"),
    SampleWord("你叫什么名字？", "nǐ jiào shénme míngzi?", "what is your name?"),
    SampleWord("很高兴认识你", "hěn gāoxìng rènshi nǐ", "nice to meet you")
  ]

  class Store {
    var vocabulary: seq<Json>
    var currentPhrase: Json
    var userResponse: Json
    var responseHistory: seq<Json>
    var hskItems: Json
    var isSpeaking: bool

    /** The initial state. */
    constructor()
      ensures vocabulary == [] && currentPhrase == Null && userResponse == Str("")
      ensures responseHistory == [] && hskItems == Arr([]) && !isSpeaking
    {
      vocabulary := [];
      currentPhrase := Null;
      userResponse := Str("");
      responseHistory := [];
      hskItems := Arr([]);
      isSpeaking := false;
    }

    /** Replaces the vocabulary; anything but an array empties it. */
    method SetVocabulary(words: Json)
      modifies this
      ensures vocabulary == ArrayItems(words)
      ensures currentPhrase == old(currentPhrase) && userResponse == old(userResponse)
      ensures responseHistory == old(responseHistory) && hskItems == old(hskItems)
      ensures isSpeaking == old(isSpeaking)
    {
      vocabulary := ArrayItems(words);
    }

    /** Appends the words of an array, in order; anything else appends nothing. */
    method AppendVocabulary(words: Json)
      modifies this
      ensures vocabulary == old(vocabulary) + ArrayItems(words)
      ensures !words.Arr? ==> vocabulary == old(vocabulary)
      ensures |vocabulary| == |old(vocabulary)| + |ArrayItems(words)|
      ensures vocabulary[..|old(vocabulary)|] == old(vocabulary)
      ensures currentPhrase == old(currentPhrase) && userResponse == old(userResponse)
      ensures responseHistory == old(responseHistory) && hskItems == old(hskItems)
      ensures isSpeaking == old(isSpeaking)
    {
      vocabulary := vocabulary + ArrayItems(words);
    }

    /** Installs the four built-in sample words. */
    method LoadSampleVocabulary()
      modifies this
      ensures vocabulary == SampleVocabulary && |vocabulary| == 4
      ensures currentPhrase == old(currentPhrase) && userResponse == old(userResponse)
      ensures responseHistory == old(responseHistory) && hskItems == old(hskItems)
      ensures isSpeaking == old(isSpeaking)
    {
      vocabulary := SampleVocabulary;
    }

    method SetCurrentPhrase(phrase: Json)
      modifies this
      ensures currentPhrase == phrase
      ensures vocabulary == old(vocabulary) && userResponse == old(userResponse)
      ensures responseHistory == old(responseHistory) && hskItems == old(hskItems)
      ensures isSpeaking == old(isSpeaking)
    {
      currentPhrase := phrase;
    }

    method SetUserResponse(response: Json)
      modifies this
      ensures userResponse == response
      ensures vocabulary == old(vocabulary) && currentPhrase == old(currentPhrase)
      ensures responseHistory == old(responseHistory) && hskItems == old(hskItems)
      ensures isSpeaking == old(isSpeaking)
    {
      userResponse := response;
    }

    /** Appends exactly one entry at the end of the history. */
    method AddToHistory(entry: Json)
      modifies this
      ensures responseHistory == old(responseHistory) + [entry]
      ensures |responseHistory| == |old(responseHistory)| + 1
      ensures responseHistory[|responseHistory| - 1] == entry
      ensures responseHistory[..|old(responseHistory)|] == old(responseHistory)
      ensures vocabulary == old(vocabulary) && currentPhrase == old(currentPhrase)
      ensures userResponse == old(userResponse) && hskItems == old(hskItems)
      ensures isSpeaking == old(isSpeaking)
    {
      responseHistory := responseHistory + [entry];
    }

    /** Empties the history and the user's response; the vocabulary stays. */
    method ClearHistory()
      modifies this
      ensures responseHistory == [] && userResponse == Str("")
      ensures vocabulary == old(vocabulary) && currentPhrase == old(currentPhrase)
      ensures hskItems == old(hskItems) && isSpeaking == old(isSpeaking)
    {
      responseHistory := [];
      userResponse := Str("");
    }

    /** Caches the HSK items; a falsy argument caches `[]`. */
    method SetHskItems(items: Json)
      modifies this
      ensures hskItems == OrEmpty(items)
      ensures !Truthy(items) ==> hskItems == Arr([])
      ensures vocabulary == old(vocabulary) && currentPhrase == old(currentPhrase)
      ensures userResponse == old(userResponse) && responseHistory == old(responseHistory)
      ensures isSpeaking == old(isSpeaking)
    {
      hskItems := OrEmpty(items);
    }

    /** Stores the truthiness of the flag. */
    method SetIsSpeaking(flag: Json)
      modifies this
      ensures isSpeaking <==> Truthy(flag)
      ensures vocabulary == old(vocabulary) && currentPhrase == old(currentPhrase)
      ensures userResponse == old(userResponse) && responseHistory == old(responseHistory)
      ensures hskItems == old(hskItems)
    {
      isSpeaking := Truthy(flag);
    }
  }
}
