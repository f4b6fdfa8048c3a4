/** The key-check playground page: it loads the stored keys and tells
    whether a pasted key is one of them. */
module PlaygroundPage {
  import opened Wrappers
  import opened Text
  import opened Records

  /** The result panel: `{ success, message, details }`. */
  datatype CheckResult = CheckResult(success: bool, message: string, details: string)

  const ValidMessage: string := "유효한 API 키입니다."
  const NotFoundMessage: string := "저장되지 않은 API 키입니다."
  const NotFoundDetails: string := "입력한 키가 맞는지 확인하거나, 대시보드에서 키를 추가해주세요."
  const DetailsBeforeName: string := "이 키는 '"
  const DetailsBeforeType: string := "' 이름으로 저장되어 있습니다. (타입: "
  const DetailsAfterType: string := ")"

  /** A key type as a template literal prints it: a null `key_type`
      prints as "null". */
  function TypeText(kind: Option<string>): string {
    match kind
    case Some(text) => text
    case None => "null"
  }

  /** The index `Array.prototype.find` stops at when looking for a row
      whose `value` is exactly `candidate`, or -1 when there is none: the
      first matching row in list order. */
  function FirstMatchIndex(keys: seq<KeyRow>, candidate: string): (r: int)
    ensures -1 <= r < |keys|
    ensures r == -1 <==> forall i :: 0 <= i < |keys| ==> keys[i].value != candidate
    ensures 0 <= r ==> keys[r].value == candidate && forall j :: 0 <= j < r ==> keys[j].value != candidate
  {
    if keys == [] then -1
    else if keys[0].value == candidate then 0
    else
      var r := FirstMatchIndex(keys[1..], candidate);
      if r == -1 then -1 else r + 1
  }

  /** `keys.find(key => key.value === candidate)`. */
  function FindByValue(keys: seq<KeyRow>, candidate: string): Option<KeyRow> {
    var i := FirstMatchIndex(keys, candidate);
    if i == -1 then None else Some(keys[i])
  }

  /** The result shown for the row found, or for no row. */
  function Verdict(found: Option<KeyRow>): CheckResult {
    match found
    case Some(key) =>
      CheckResult(true, ValidMessage,
                  DetailsBeforeName + key.name + DetailsBeforeType + TypeText(key.kind) + DetailsAfterType)
    case None =>
      CheckResult(false, NotFoundMessage, NotFoundDetails)
  }

  /** What checking `input` against `keys` ends with: nothing when the
      input is blank, otherwise the verdict on the trimmed input. */
  function CheckOutcome(keys: seq<KeyRow>, input: string): Option<CheckResult> {
    var candidate := Trim(input);
    if candidate == [] then None else Some(Verdict(FindByValue(keys, candidate)))
  }

  /** A check happens exactly when the input is not whitespace only. */
  lemma CheckOutcomeBlank(keys: seq<KeyRow>, input: string)
    ensures CheckOutcome(keys, input).None? <==> AllWhitespace(input)
  {
    TrimEmptyIff(input);
  }

  /** The outcome depends on the input only through its trimmed form. */
  lemma CheckOutcomeOnlyTrimmed(keys: seq<KeyRow>, a: string, b: string)
    requires Trim(a) == Trim(b)
    ensures CheckOutcome(keys, a) == CheckOutcome(keys, b)
  {
  }

  /** The verdict on `candidate` is a success exactly when some row's value
      equals it, and then its details name the first such row and its
      type; otherwise it is the fixed not-found result, whatever the
      candidate. */
  lemma {:induction false} VerdictSpec(keys: seq<KeyRow>, candidate: string)
    ensures Verdict(FindByValue(keys, candidate)).success <==>
      exists i :: 0 <= i < |keys| && keys[i].value == candidate
    ensures Verdict(FindByValue(keys, candidate)).success ==>
      var r := Verdict(FindByValue(keys, candidate));
      var i := FirstMatchIndex(keys, candidate);
      && 0 <= i && keys[i].value == candidate
      && (forall j :: 0 <= j < i ==> keys[j].value != candidate)
      && r.message == ValidMessage
      && r.details[|DetailsBeforeName|..|DetailsBeforeName| + |keys[i].name|] == keys[i].name
      && r.details[|r.details| - |TypeText(keys[i].kind)| - 1..|r.details| - 1] == TypeText(keys[i].kind)
    ensures !Verdict(FindByValue(keys, candidate)).success ==>
      Verdict(FindByValue(keys, candidate)) == CheckResult(false, NotFoundMessage, NotFoundDetails)
  {
  }

  /** Two rows with the same value: the earlier one is reported. */
  lemma {:induction false} FirstOfDuplicatesReported(keys: seq<KeyRow>, i: nat, j: nat)
    requires i < j < |keys| && keys[i].value == keys[j].value
    ensures FindByValue(keys, keys[j].value).Some?
    ensures 0 <= FirstMatchIndex(keys, keys[j].value) <= i
    ensures FindByValue(keys, keys[j].value).value == keys[FirstMatchIndex(keys, keys[j].value)]
  {
  }

  /** The stored value is compared untrimmed: a row whose value begins or
      ends with whitespace is never matched, whatever is typed. */
  lemma {:induction false} PaddedValueNeverMatches(keys: seq<KeyRow>, input: string, i: nat)
    requires i < |keys| && keys[i].value != []
    requires IsWhitespace(keys[i].value[0]) || IsWhitespace(keys[i].value[|keys[i].value| - 1])
    ensures FirstMatchIndex(keys, Trim(input)) != i
  {
    var a, b := TrimIsSlice(input);
  }

  /** Whitespace typed around a trimmed key does not change the outcome. */
  lemma {:induction false} SurroundingWhitespaceIgnored(keys: seq<KeyRow>, pre: string, key: string, post: string)
    requires AllWhitespace(pre) && AllWhitespace(post)
    requires key == [] || (!IsWhitespace(key[0]) && !IsWhitespace(key[|key| - 1]))
    ensures CheckOutcome(keys, pre + key + post) == CheckOutcome(keys, key)
  {
    TrimAround(pre, key, post);
    TrimOfTrimmed(key);
    CheckOutcomeOnlyTrimmed(keys, pre + key + post, key);
  }

  class Playground {
    var apiKeys: seq<KeyRow>
    var inputApiKey: string
    var checkResult: Option<CheckResult>
    var isLoading: bool
    var isLoadingKeys: bool

    /** The page's initial state. */
    constructor ()
      ensures apiKeys == [] && inputApiKey == [] && checkResult == None
      ensures !isLoading && isLoadingKeys
    {
      apiKeys := [];
      inputApiKey := [];
      checkResult := None;
      isLoading := false;
      isLoadingKeys := true;
    }

    /** The effect run on mount: load `/api/keys` (the call's outcome is
        `reply`) and stop the loading indicator. */
    method FetchKeys(reply: Reply)
      modifies this`apiKeys, this`isLoadingKeys
      ensures apiKeys == LoadedRows(reply) && !isLoadingKeys
    {
      isLoadingKeys := true;
      apiKeys := LoadedRows(reply);
      isLoadingKeys := false;
    }

    /** The key input's `onChange`. */
    method EnterApiKey(text: string)
      modifies this`inputApiKey
      ensures inputApiKey == text
    {
      inputApiKey := text;
    }

    /** `checkApiKey`, with its delayed callback run to completion. A blank
        input changes nothing; otherwise the result panel shows the verdict
        on the first row whose value is the trimmed input. The key list and
        the input are only read. */
    method CheckApiKey()
      modifies this`checkResult, this`isLoading
      ensures Trim(inputApiKey) == [] ==> checkResult == old(checkResult) && isLoading == old(isLoading)
      ensures Trim(inputApiKey) != [] ==>
        checkResult == Some(Verdict(FindByValue(apiKeys, Trim(inputApiKey)))) && !isLoading
      ensures Trim(inputApiKey) != [] ==> checkResult == CheckOutcome(apiKeys, inputApiKey)
    {
      var candidate := Trim(inputApiKey);
      if candidate != [] {
        isLoading := true;
        checkResult := None;
        var found := FindByValue(apiKeys, candidate);
        checkResult := Some(Verdict(found));
        isLoading := false;
      }
    }
  }
}
