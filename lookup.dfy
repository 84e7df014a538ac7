/**
 * The reservation lookup dialog: the code field, and the submit decision
 * over the result of the `code == key` query. The query is a parameter
 * `lookup`; navigation (after a 100 ms timer) is the method's result.
 */
module Lookup {
  import opened JsValues

  /** What the query returns: an error, or the `status` of each matching
      document in query order. */
  datatype QueryResult = QueryFailed | Matches(statuses: seq<JsValue>)

  /** How a submit ends: one of four error toasts, or navigation. */
  datatype Outcome = EmptyCode | NotFound | Cancelled | LookupFailed | Navigate(path: string)

  /** The toast each error shows. */
  function ErrorMessage(o: Outcome): (m: string)
    requires !o.Navigate?
    ensures m != ""
  {
    match o
    case EmptyCode => "Lütfen rezervasyon kodunu giriniz"
    case NotFound => "Rezervasyon bulunamadı. Lütfen kodu kontrol ediniz."
    case Cancelled => "Bu rezervasyon iptal edilmiş"
    case LookupFailed => "Rezervasyon sorgulanırken bir hata oluştu"
  }

  /** `code.trim().toUpperCase()` */
  function NormaliseKey(code: string): string
  {
    ToUpper(Trim(code))
  }

  const ReservationPath: string := "/rezervasyon/"

  /** The decision `handleSubmit` makes. */
  function Decide(code: string, lookup: string -> QueryResult): (o: Outcome)
    ensures o == EmptyCode <==> NormaliseKey(code) == ""
    ensures o == NotFound <==> NormaliseKey(code) != "" && lookup(NormaliseKey(code)) == Matches([])
    ensures o == Cancelled <==> (NormaliseKey(code) != "" && lookup(NormaliseKey(code)).Matches?
      && |lookup(NormaliseKey(code)).statuses| > 0 && lookup(NormaliseKey(code)).statuses[0] == Str("iptal"))
    ensures o == LookupFailed <==> NormaliseKey(code) != "" && lookup(NormaliseKey(code)).QueryFailed?
    ensures o.Navigate? ==> o.path == ReservationPath + NormaliseKey(code)
  {
    var key := NormaliseKey(code);
    if key == "" then EmptyCode
    else
      match lookup(key)
      case QueryFailed => LookupFailed
      case Matches(statuses) =>
        if |statuses| == 0 then NotFound
        else if statuses[0] == Str("iptal") then Cancelled
        else Navigate(ReservationPath + key)
  }

  /** The empty key is refused before any query: the outcome does not
      depend on what the store would return. */
  lemma EmptyKeyNeedsNoQuery(code: string, lookup1: string -> QueryResult, lookup2: string -> QueryResult)
    requires NormaliseKey(code) == ""
    ensures Decide(code, lookup1) == Decide(code, lookup2) == EmptyCode
  {
  }

  /** White space only, and nothing else, normalises to the empty key. */
  lemma EmptyKeyIffBlank(code: string)
    ensures NormaliseKey(code) == "" <==> forall i :: 0 <= i < |code| ==> IsJsSpace(code[i])
  {
    TrimIsEmptyIffAllSpace(code);
  }

  /** Upper-casing maps white space to white space and nothing else to it. */
  lemma UpperKeepsSpace(c: char)
    ensures IsJsSpace(UpperChar(c)) <==> IsJsSpace(c)
  {
  }

  lemma {:induction false} TrimStartOfClean(s: string)
    requires s == [] || !IsJsSpace(s[0])
    ensures TrimStart(s) == s
  {
  }

  lemma {:induction false} TrimEndOfClean(s: string)
    requires s == [] || !IsJsSpace(s[|s| - 1])
    ensures TrimEnd(s) == s
  {
  }

  /** A key starts and ends with a character other than white space. */
  lemma KeyHasNoOuterSpace(code: string)
    ensures var t := Trim(code); t == [] || (!IsJsSpace(t[0]) && !IsJsSpace(t[|t| - 1]))
  {
    var s := TrimStart(code);
    var t := TrimEnd(s);
    if t != [] {
      assert t[0] == s[0];
    }
  }

  /** The key is already normal: normalising it again, as the page the
      dialog navigates to would, gives the same key. */
  lemma NormaliseKeyIdempotent(code: string)
    ensures NormaliseKey(NormaliseKey(code)) == NormaliseKey(code)
  {
    KeyIsTrimmed(code);
    ToUpperIdempotent(Trim(code));
  }

  lemma KeyIsTrimmed(code: string)
    ensures Trim(NormaliseKey(code)) == NormaliseKey(code)
  {
    var t := Trim(code);
    var k := ToUpper(t);
    KeyHasNoOuterSpace(code);
    if k != [] {
      UpperKeepsSpace(t[0]);
      UpperKeepsSpace(t[|t| - 1]);
    }
    TrimStartOfClean(k);
    TrimEndOfClean(k);
  }

  /** A navigation target is the reservation path followed by a non-empty,
      normal key. */
  lemma NavigationTargetIsNormal(code: string, lookup: string -> QueryResult)
    requires Decide(code, lookup).Navigate?
    ensures var p := Decide(code, lookup).path;
      && |p| > |ReservationPath| && p[..|ReservationPath|] == ReservationPath
      && NormaliseKey(p[|ReservationPath|..]) == p[|ReservationPath|..]
  {
    var p := Decide(code, lookup).path;
    var key := NormaliseKey(code);
    assert p[|ReservationPath|..] == key;
    NormaliseKeyIdempotent(code);
  }

  /** `value.slice(0, 6)`: what an input with `maxLength={6}` can hold. */
  function Limit(value: string): (r: string)
    ensures r <= value && |r| == (if |value| <= 6 then |value| else 6)
    ensures |value| <= 6 ==> r == value
    ensures |value| > 6 ==> r == value[..6]
  {
    if |value| <= 6 then value else value[..6]
  }

  class LookupDialog {
    var code: string
    var loading: bool
    var open: bool

    constructor()
      ensures code == "" && !loading && open
    {
      code, loading, open := "", false, true;
    }

    /** `onChange`: the typed text, upper-cased. */
    method HandleCodeChange(value: string)
      modifies this
      ensures code == ToUpper(Limit(value))
      ensures loading == old(loading) && open == old(open)
    {
      code := ToUpper(Limit(value));
    }

    /** `handleSubmit`: an empty key is refused without a query and leaves
        the loading flag alone; otherwise the flag ends cleared, and only a
        navigation closes the dialog. */
    method HandleSubmit(lookup: string -> QueryResult) returns (outcome: Outcome)
      modifies this
      ensures outcome == Decide(old(code), lookup)
      ensures code == old(code)
      ensures outcome == EmptyCode ==> loading == old(loading)
      ensures outcome != EmptyCode ==> !loading
      ensures open == (old(open) && !outcome.Navigate?)
    {
      var trimmedCode := NormaliseKey(code);
      if trimmedCode == "" {
        return EmptyCode;
      }
      loading := true;
      var result := lookup(trimmedCode);
      if result.QueryFailed? {
        outcome := LookupFailed;
      } else if |result.statuses| == 0 {
        outcome := NotFound;
      } else if result.statuses[0] == Str("iptal") {
        outcome := Cancelled;
      } else {
        open := false;
        outcome := Navigate(ReservationPath + trimmedCode);
      }
      loading := false;
    }
  }
}
