/** The administrators' dictionary of banned words, `src/app/api/admin/profanity/route.ts`.
    The JSON file the handlers read and rewrite is the `Store` object; its three fields are
    the file's `words`, `version` and `lastUpdated`. Each handler is a method that checks the
    caller, checks its input and then changes the store, with the same early returns as the
    route. */
module WordStore {
  import opened JsText
  import opened StringOrder
  import opened Auth

  /** The JSON body of a response: an error, the listing of `GET`, or the report of a change. */
  datatype Body =
    | Failure(error: string)
    | Listing(words: seq<string>, count: nat, version: string, lastUpdated: string)
    | Changed(message: string, word: string, totalWords: nat)

  datatype Response = Response(status: nat, body: Body)

  /** The content of the dictionary file. */
  datatype Dictionary = Dictionary(words: seq<string>, version: string, lastUpdated: string)

  /** The `word` member of a `POST` body: a string, or anything else (absent, `null`, a
      number, an object). */
  datatype WordField = Text(s: string) | NonString

  /** What a handler leaves behind: the dictionary file and the response. */
  datatype Outcome = Outcome(dict: Dictionary, response: Response)

  /** The check every handler starts with. `token` is the auth cookie, `verify` stands for
      `verifyToken`; `None` lets the caller through. */
  function Gate(token: Option<string>, verify: string -> Option<AuthUser>): (r: Option<Response>)
    ensures r.None? <==> token.Some? && token.value != [] && IsAdmin(verify(token.value))
    ensures r.Some? ==> r.value.body.Failure? && r.value.status in {401, 403}
    ensures r.Some? && r.value.status == 403 <==>
      token.Some? && token.value != [] && verify(token.value).Some? && !IsAdmin(verify(token.value))
  {
    if token.None? || token.value == [] then Some(Response(401, Failure("Unauthorized")))
    else if verify(token.value).None? then Some(Response(401, Failure("Unauthorized")))
    else if verify(token.value).value.role != Admin then Some(Response(403, Failure("Forbidden")))
    else None
  }

  /** `word.trim().toLowerCase()`. */
  function Normalise(word: string): (r: string)
    ensures r == [] <==> Blank(word)
  {
    TrimBlank(word);
    Lower(Trim(word))
  }

  /** `GET`: the words with their count, version and date. */
  function GetOf(d: Dictionary, token: Option<string>, verify: string -> Option<AuthUser>): Response
  {
    if Gate(token, verify).Some? then Gate(token, verify).value
    else Response(200, Listing(d.words, |d.words|, d.version, d.lastUpdated))
  }

  /** `POST`: add `word`, normalised, to the dictionary, dated `today`. */
  function PostOf(d: Dictionary, token: Option<string>, verify: string -> Option<AuthUser>,
                  word: WordField, today: string): Outcome
  {
    if Gate(token, verify).Some? then Outcome(d, Gate(token, verify).value)
    else if word.NonString? || word.s == [] then Outcome(d, Response(400, Failure("Invalid word")))
    else if Normalise(word.s) == [] then Outcome(d, Response(400, Failure("Word cannot be empty")))
    else if Normalise(word.s) in d.words then Outcome(d, Response(400, Failure("Word already exists")))
    else
      var words := Sort(d.words + [Normalise(word.s)]);
      Outcome(Dictionary(words, d.version, today),
              Response(200, Changed("Word added successfully", Normalise(word.s), |words|)))
  }

  /** `DELETE`: remove the query parameter `word`, normalised, from the dictionary, dated
      `today`; `None` is a request without the parameter. */
  function DeleteOf(d: Dictionary, token: Option<string>, verify: string -> Option<AuthUser>,
                    word: Option<string>, today: string): Outcome
  {
    if Gate(token, verify).Some? then Outcome(d, Gate(token, verify).value)
    else if word.None? || word.value == [] then
      Outcome(d, Response(400, Failure("Word parameter is required")))
    else
      var k := IndexOf(d.words, Normalise(word.value));
      if k == -1 then Outcome(d, Response(404, Failure("Word not found")))
      else
        var words := RemoveAt(d.words, k);
        Outcome(Dictionary(words, d.version, today),
                Response(200, Changed("Word deleted successfully", Normalise(word.value), |words|)))
  }

  /** The dictionary file, changed in place by the handlers. */
  class Store {
    var words: seq<string>
    var version: string
    var lastUpdated: string

    function State(): Dictionary
      reads this
    {
      Dictionary(words, version, lastUpdated)
    }

    constructor(d: Dictionary)
      ensures State() == d
    {
      words := d.words;
      version := d.version;
      lastUpdated := d.lastUpdated;
    }

    method Get(token: Option<string>, verify: string -> Option<AuthUser>) returns (resp: Response)
      ensures resp == GetOf(State(), token, verify)
    {
      var denied := Gate(token, verify);
      if denied.Some? {
        return denied.value;
      }
      resp := Response(200, Listing(words, |words|, version, lastUpdated));
    }

    method Post(token: Option<string>, verify: string -> Option<AuthUser>, word: WordField,
                today: string) returns (resp: Response)
      modifies this
      ensures Outcome(State(), resp) == PostOf(old(State()), token, verify, word, today)
    {
      var denied := Gate(token, verify);
      if denied.Some? {
        return denied.value;
      }
      if word.NonString? || word.s == [] {
        return Response(400, Failure("Invalid word"));
      }
      var cleanWord := Normalise(word.s);
      if cleanWord == [] {
        return Response(400, Failure("Word cannot be empty"));
      }
      if cleanWord in words {
        return Response(400, Failure("Word already exists"));
      }
      words := words + [cleanWord];
      words := Sort(words);
      lastUpdated := today;
      resp := Response(200, Changed("Word added successfully", cleanWord, |words|));
    }

    method Delete(token: Option<string>, verify: string -> Option<AuthUser>, word: Option<string>,
                  today: string) returns (resp: Response)
      modifies this
      ensures Outcome(State(), resp) == DeleteOf(old(State()), token, verify, word, today)
    {
      var denied := Gate(token, verify);
      if denied.Some? {
        return denied.value;
      }
      if word.None? || word.value == [] {
        return Response(400, Failure("Word parameter is required"));
      }
      var cleanWord := Normalise(word.value);
      var index := IndexOf(words, cleanWord);
      if index == -1 {
        return Response(404, Failure("Word not found"));
      }
      words := RemoveAt(words, index);
      lastUpdated := today;
      resp := Response(200, Changed("Word deleted successfully", cleanWord, |words|));
    }
  }

  /** A caller who does not pass the gate gets the gate's answer from every handler, and the
      dictionary stays as it was. */
  lemma GateComesFirst(d: Dictionary, token: Option<string>, verify: string -> Option<AuthUser>,
                       word: WordField, param: Option<string>, today: string)
    requires !(token.Some? && token.value != [] && IsAdmin(verify(token.value)))
    ensures GetOf(d, token, verify).status in {401, 403}
    ensures PostOf(d, token, verify, word, today) == Outcome(d, GetOf(d, token, verify))
    ensures DeleteOf(d, token, verify, param, today) == Outcome(d, GetOf(d, token, verify))
  {
  }

  /** The listing reports the file as it is, with `count` its number of words. */
  lemma GetReportsDictionary(d: Dictionary, token: Option<string>, verify: string -> Option<AuthUser>)
    requires token.Some? && token.value != [] && IsAdmin(verify(token.value))
    ensures GetOf(d, token, verify) == Response(200, Listing(d.words, |d.words|, d.version, d.lastUpdated))
  {
  }

  /** A `POST` without a usable word is refused with 400 and changes nothing: a missing or
      non-string word, the empty string, or one made only of white space. */
  lemma PostRefusesBadInput(d: Dictionary, token: Option<string>, verify: string -> Option<AuthUser>,
                            word: WordField, today: string)
    requires token.Some? && token.value != [] && IsAdmin(verify(token.value))
    requires word.NonString? || Blank(word.s)
    ensures PostOf(d, token, verify, word, today).dict == d
    ensures PostOf(d, token, verify, word, today).response.status == 400
    ensures PostOf(d, token, verify, word, today).response.body ==
      if word.NonString? || word.s == [] then Failure("Invalid word") else Failure("Word cannot be empty")
  {
  }

  /** A `POST` of a word already in the dictionary, after normalising, is refused with 400
      and changes nothing. */
  lemma PostRefusesDuplicate(d: Dictionary, token: Option<string>, verify: string -> Option<AuthUser>,
                             w: string, today: string)
    requires token.Some? && token.value != [] && IsAdmin(verify(token.value))
    requires !Blank(w) && Normalise(w) in d.words
    ensures PostOf(d, token, verify, Text(w), today) ==
      Outcome(d, Response(400, Failure("Word already exists")))
  {
  }

  /** A successful `POST` appends the normalised word and sorts the list: one more word, in
      ascending order, the same words besides the new one, `totalWords` its new length and
      the date set to `today`. */
  lemma PostAddsWord(d: Dictionary, token: Option<string>, verify: string -> Option<AuthUser>,
                     w: string, today: string)
    requires token.Some? && token.value != [] && IsAdmin(verify(token.value))
    requires !Blank(w) && Normalise(w) !in d.words
    ensures var o := PostOf(d, token, verify, Text(w), today);
      && o.dict == Dictionary(Sort(d.words + [Normalise(w)]), d.version, today)
      && |o.dict.words| == |d.words| + 1
      && Sorted(o.dict.words)
      && multiset(o.dict.words) == multiset(d.words) + multiset{Normalise(w)}
      && o.response == Response(200, Changed("Word added successfully", Normalise(w), |d.words| + 1))
  {
    SortSorted(d.words + [Normalise(w)]);
  }

  /** A `DELETE` without the parameter, or with an empty one, is refused with 400; one whose
      normalised word is not in the dictionary gets 404. Neither changes anything. */
  lemma DeleteRefuses(d: Dictionary, token: Option<string>, verify: string -> Option<AuthUser>,
                      param: Option<string>, today: string)
    requires token.Some? && token.value != [] && IsAdmin(verify(token.value))
    requires param.None? || param.value == [] || Normalise(param.value) !in d.words
    ensures DeleteOf(d, token, verify, param, today).dict == d
    ensures DeleteOf(d, token, verify, param, today).response ==
      if param.None? || param.value == [] then Response(400, Failure("Word parameter is required"))
      else Response(404, Failure("Word not found"))
  {
  }

  /** A successful `DELETE` takes out the first occurrence of the normalised word and
      nothing else: the other words keep their order, the list is one shorter, and a
      dictionary without repeats no longer holds the word. */
  lemma DeleteRemovesWord(d: Dictionary, token: Option<string>, verify: string -> Option<AuthUser>,
                          w: string, today: string)
    requires token.Some? && token.value != [] && IsAdmin(verify(token.value))
    requires w != [] && Normalise(w) in d.words
    ensures var o := DeleteOf(d, token, verify, Some(w), today);
      var k := IndexOf(d.words, Normalise(w));
      && 0 <= k
      && o.dict == Dictionary(d.words[..k] + d.words[k + 1..], d.version, today)
      && |o.dict.words| == |d.words| - 1
      && (NoDup(d.words) ==> Normalise(w) !in o.dict.words)
      && o.response == Response(200, Changed("Word deleted successfully", Normalise(w), |d.words| - 1))
  {
    var k := IndexOf(d.words, Normalise(w));
    if NoDup(d.words) {
      RemoveAtDropsUnique(d.words, k);
    }
  }

  /** On a sorted dictionary, adding a new word and deleting the same word again gives back
      the original list. */
  lemma AddThenDeleteRestores(d: Dictionary, token: Option<string>, verify: string -> Option<AuthUser>,
                              w: string, today: string)
    requires token.Some? && token.value != [] && IsAdmin(verify(token.value))
    requires Sorted(d.words) && !Blank(w) && Normalise(w) !in d.words
    ensures var added := PostOf(d, token, verify, Text(w), today).dict;
      DeleteOf(added, token, verify, Some(w), today).dict == Dictionary(d.words, d.version, today)
  {
    var x := Normalise(w);
    SortAfterPush(d.words, x);
    InsertThenRemove(x, d.words);
  }
}
