/**
 * `process_thinking_response`: a reasoning model's reply carries its reasoning between
 * `<think>` and `</think>` and its answer in a fenced block opened by "```json"; the
 * answer is handed to a validator (a pydantic model, here a decoding function).
 */
module ChatUtils {
  import opened Wrappers
  import opened Text
  import Seqs

  const JsonOpen: string := "```json"
  const Fence: string := "```"
  const ThinkOpen: string := "<think>"
  const ThinkClose: string := "</think>"

  /**
   * The group of `re.search(r'```json\s*(.*?)\s*```', text, re.DOTALL)`: from the first
   * "```json" to the first "```" after it, without surrounding whitespace. A later
   * "```json" cannot match where the first failed, because the fence search only grows
   * harder further right.
   */
  function JsonPayload(text: string): (r: Option<string>)
  {
    match Find(text, JsonOpen, 0)
    case None => None
    case Some(p) =>
      match Find(text, Fence, p + |JsonOpen|)
      case None => None
      case Some(c) => Some(Strip(text[p + |JsonOpen|..c]))
  }

  /**
   * The group of `re.search(r'<think>(.*?)</think>', text, re.DOTALL)`: from the first
   * "<think>" to the first "</think>" after it.
   */
  function ThinkingSection(text: string): (r: Option<string>)
  {
    match Find(text, ThinkOpen, 0)
    case None => None
    case Some(p) =>
      match Find(text, ThinkClose, p + |ThinkOpen|)
      case None => None
      case Some(c) => Some(text[p + |ThinkOpen|..c])
  }

  /**
   * `process_thinking_response`: the JSON block is looked for first, then the thinking block;
   * the stripped thinking is returned with the decoded answer, and a decoding failure
   * propagates.
   */
  function ProcessThinkingResponse<T>(text: string, decode: string -> Result<T>): (r: Result<(string, T)>)
  {
    match JsonPayload(text)
    case None => Err(ValueError("No valid JSON found in response"))
    case Some(payload) =>
      match ThinkingSection(text)
      case None => Err(ValueError("No valid thinking found in response"))
      case Some(thinking) =>
        match decode(payload)
        case Err(e) => Err(e)
        case Ok(v) => Ok((Strip(thinking), v))
  }

  /**
   * The JSON block is found exactly when some "```json" is followed by a "```"; it is then
   * the stripped text between the first "```json" and the first "```" after it.
   */
  lemma JsonPayloadMeaning(text: string)
    ensures JsonPayload(text).Some? <==>
              exists p, c :: Find(text, JsonOpen, 0) == Some(p) && Find(text, Fence, p + |JsonOpen|) == Some(c)
    ensures JsonPayload(text).Some? ==>
              exists p, c :: Find(text, JsonOpen, 0) == Some(p) && Find(text, Fence, p + |JsonOpen|) == Some(c)
                             && p + |JsonOpen| <= c && JsonPayload(text).value == Strip(text[p + |JsonOpen|..c])
  {
    match Find(text, JsonOpen, 0)
    case None =>
    case Some(p) =>
      match Find(text, Fence, p + |JsonOpen|)
      case None =>
      case Some(c) =>
        assert JsonPayload(text) == Some(Strip(text[p + |JsonOpen|..c]));
  }

  /**
   * The thinking block is found exactly when some "<think>" is followed by a "</think>"; it
   * is then the text between the first "<think>" and the first "</think>" after it.
   */
  lemma ThinkingSectionMeaning(text: string)
    ensures ThinkingSection(text).Some? <==>
              exists p, c :: Find(text, ThinkOpen, 0) == Some(p) && Find(text, ThinkClose, p + |ThinkOpen|) == Some(c)
    ensures ThinkingSection(text).Some? ==>
              exists p, c :: Find(text, ThinkOpen, 0) == Some(p) && Find(text, ThinkClose, p + |ThinkOpen|) == Some(c)
                             && p + |ThinkOpen| <= c && ThinkingSection(text).value == text[p + |ThinkOpen|..c]
  {
    match Find(text, ThinkOpen, 0)
    case None =>
    case Some(p) =>
      match Find(text, ThinkClose, p + |ThinkOpen|)
      case None =>
      case Some(c) =>
        assert ThinkingSection(text) == Some(text[p + |ThinkOpen|..c]);
  }

  /**
   * The outcomes of `process_thinking_response`: the JSON error when there is no answer
   * block, then the thinking error when there is no thinking block, then the decoder's
   * error, and otherwise the stripped thinking with the decoded answer.
   */
  lemma ProcessThinkingResponseCases<T>(text: string, decode: string -> Result<T>)
    ensures JsonPayload(text).None? ==>
              ProcessThinkingResponse(text, decode) == Err(ValueError("No valid JSON found in response"))
    ensures JsonPayload(text).Some? && ThinkingSection(text).None? ==>
              ProcessThinkingResponse(text, decode) == Err(ValueError("No valid thinking found in response"))
    ensures JsonPayload(text).Some? && ThinkingSection(text).Some? ==>
              (decode(JsonPayload(text).value).Err? ==>
                 ProcessThinkingResponse(text, decode) == Err(decode(JsonPayload(text).value).error))
              && (decode(JsonPayload(text).value).Ok? ==>
                    ProcessThinkingResponse(text, decode)
                    == Ok((Strip(ThinkingSection(text).value), decode(JsonPayload(text).value).value)))
  {
  }

  // ---------------------------------------------------------------------------------------
  // Replies built from their parts

  lemma FreeConcat(a: string, b: string, c: char)
    requires Free(a, c) && Free(b, c)
    ensures Free(a + b, c)
  {
  }

  function Shift(r: Option<nat>, n: nat): Option<nat> {
    match r case None => None case Some(i) => Some(n + i)
  }

  /** Searching from `k` past a prefix `x` is searching `y` from `k`, shifted by `|x|`. */
  lemma {:induction false} FindShift(x: string, y: string, pat: string, k: nat)
    ensures Find(x + y, pat, |x| + k) == Shift(Find(y, pat, k), |x|)
    decreases |y| - k
  {
    var s := x + y;
    if |x| + k + |pat| <= |s| {
      assert s[|x| + k..|x| + k + |pat|] == y[k..k + |pat|];
      if !OccursAt(s, pat, |x| + k) {
        FindShift(x, y, pat, k + 1);
      }
    }
  }

  /**
   * A block `open body close` after a stretch `a`: when `a` holds no copy of the opening
   * marker's first character and `body` none of the closing marker's, the first opening
   * marker is the block's, the first closing marker after it is the block's, and what lies
   * between is `body`.
   */
  lemma FindBlock(a: string, open: string, body: string, close: string, rest: string)
    requires open != [] && close != [] && Free(a, open[0]) && Free(body, close[0])
    ensures var text := a + (open + (body + (close + rest)));
            Find(text, open, 0) == Some(|a|)
            && Find(text, close, |a| + |open|) == Some(|a| + |open| + |body|)
            && text[|a| + |open|..|a| + |open| + |body|] == body
  {
    FindAfter(a, open, body + (close + rest));
    BlockClose(a, open, body, close, rest);
    BlockSlice(a, open, body, close, rest);
  }

  lemma BlockClose(a: string, open: string, body: string, close: string, rest: string)
    requires close != [] && Free(body, close[0])
    ensures Find(a + (open + (body + (close + rest))), close, |a| + |open|) == Some(|a| + |open| + |body|)
  {
    InnerClose(open, body, close, rest);
    FindShiftAt(a, open + (body + (close + rest)), close, |open|, |open| + |body|,
                a + (open + (body + (close + rest))), |a| + |open|, |a| + |open| + |body|);
  }

  lemma InnerClose(open: string, body: string, close: string, rest: string)
    requires close != [] && Free(body, close[0])
    ensures Find(open + (body + (close + rest)), close, |open|) == Some(|open| + |body|)
  {
    FindAfter(body, close, rest);
    var y := body + (close + rest);
    FindShiftAt(open, y, close, 0, |body|, open + y, |open|, |open| + |body|);
  }

  /** `FindShift` for a search that succeeds, with the shifted text and positions named. */
  lemma FindShiftAt(x: string, y: string, pat: string, k: nat, v: nat, s: string, k': nat, v': nat)
    requires Find(y, pat, k) == Some(v) && s == x + y && k' == |x| + k && v' == |x| + v
    ensures Find(s, pat, k') == Some(v')
  {
    FindShift(x, y, pat, k);
  }

  lemma BlockSlice(a: string, open: string, body: string, close: string, rest: string)
    ensures (a + (open + (body + (close + rest))))[|a| + |open|..|a| + |open| + |body|] == body
  {
    var text := a + (open + (body + (close + rest)));
    assert text[|a|..] == open + (body + (close + rest));
    assert text[|a| + |open|..] == body + (close + rest);
  }

  /** A fenced answer after a stretch without '`' is found, stripped. */
  lemma JsonBlock(a: string, js: string, rest: string)
    requires Free(a, '`') && Free(js, '`')
    ensures JsonPayload(a + (JsonOpen + (js + (Fence + rest)))) == Some(Strip(js))
  {
    var text := a + (JsonOpen + (js + (Fence + rest)));
    FindBlock(a, JsonOpen, js, Fence, rest);
    JsonFromBlock(text, |a|, js);
  }

  /** Where the searches find the block, the payload is its stripped body. */
  lemma JsonFromBlock(text: string, p: nat, js: string)
    requires Find(text, JsonOpen, 0) == Some(p)
    requires Find(text, Fence, p + |JsonOpen|) == Some(p + |JsonOpen| + |js|)
    requires text[p + |JsonOpen|..p + |JsonOpen| + |js|] == js
    ensures JsonPayload(text) == Some(Strip(js))
  {
    JsonPayloadAt(text, p, p + |JsonOpen| + |js|);
  }

  lemma JsonPayloadAt(text: string, p: nat, c: nat)
    requires Find(text, JsonOpen, 0) == Some(p) && Find(text, Fence, p + |JsonOpen|) == Some(c)
    ensures p + |JsonOpen| <= c <= |text| && JsonPayload(text) == Some(Strip(text[p + |JsonOpen|..c]))
  {
  }

  /** A thinking block after a stretch without '<' is found. */
  lemma ThinkBlock(a: string, th: string, rest: string)
    requires Free(a, '<') && Free(th, '<')
    ensures ThinkingSection(a + (ThinkOpen + (th + (ThinkClose + rest)))) == Some(th)
  {
    FindBlock(a, ThinkOpen, th, ThinkClose, rest);
  }

  /** Once both sections are found, the result is the stripped thinking and the decoded answer. */
  lemma Assemble<T>(text: string, js: string, th: string, decode: string -> Result<T>)
    requires JsonPayload(text) == Some(Strip(js)) && ThinkingSection(text) == Some(th)
    ensures ProcessThinkingResponse(text, decode)
            == (match decode(Strip(js))
                case Err(e) => Err(e)
                case Ok(v) => Ok((Strip(th), v)))
  {
  }

  lemma MarkersFree()
    ensures Free(ThinkOpen, '`') && Free(ThinkClose, '`') && Free(JsonOpen, '<') && Free(Fence, '<')
  {
  }

  /** `a + (m1 + (b + (m2 + c)))`, regrouped to put `c` last on its own. */
  lemma Regroup(a: string, m1: string, b: string, m2: string, c: string, rest: string)
    ensures a + (m1 + (b + (m2 + (c + rest)))) == (a + (m1 + (b + (m2 + c)))) + rest
  {
    Seqs.Assoc(m2, c, rest);
    Seqs.Assoc(b, m2 + c, rest);
    Seqs.Assoc(m1, b + (m2 + c), rest);
    Seqs.Assoc(a, m1 + (b + (m2 + c)), rest);
  }

  lemma FreeBlock(a: string, m1: string, b: string, m2: string, c: string, ch: char)
    requires Free(a, ch) && Free(m1, ch) && Free(b, ch) && Free(m2, ch) && Free(c, ch)
    ensures Free(a + (m1 + (b + (m2 + c))), ch)
  {
    FreeConcat(m2, c, ch);
    FreeConcat(b, m2 + c, ch);
    FreeConcat(m1, b + (m2 + c), ch);
    FreeConcat(a, m1 + (b + (m2 + c)), ch);
  }

  /**
   * Thinking first, then the answer: with no '<' or '`' before the answer's fence other than
   * in the markers themselves, and no '`' inside the answer, the reply yields the stripped
   * thinking and the decoded stripped answer.
   */
  lemma ThinkingThenJson<T>(pre: string, th: string, mid: string, js: string, post: string,
                            decode: string -> Result<T>)
    requires Free(pre, '<') && Free(pre, '`') && Free(th, '<') && Free(th, '`') && Free(mid, '`')
    requires Free(js, '`')
    ensures var text := pre + (ThinkOpen + (th + (ThinkClose + (mid + (JsonOpen + (js + (Fence + post)))))));
            ProcessThinkingResponse(text, decode)
            == (match decode(Strip(js))
                case Err(e) => Err(e)
                case Ok(v) => Ok((Strip(th), v)))
  {
    var rest := JsonOpen + (js + (Fence + post));
    var text := pre + (ThinkOpen + (th + (ThinkClose + (mid + rest))));
    ThinkBlock(pre, th, mid + rest);
    var x := pre + (ThinkOpen + (th + (ThinkClose + mid)));
    Regroup(pre, ThinkOpen, th, ThinkClose, mid, rest);
    MarkersFree();
    FreeBlock(pre, ThinkOpen, th, ThinkClose, mid, '`');
    JsonBlock(x, js, post);
    Assemble(text, js, th, decode);
  }

  /** The answer first, then the thinking: the order of the two blocks does not matter. */
  lemma JsonThenThinking<T>(pre: string, js: string, mid: string, th: string, post: string,
                            decode: string -> Result<T>)
    requires Free(pre, '<') && Free(pre, '`') && Free(js, '<') && Free(js, '`') && Free(mid, '<')
    requires Free(th, '<')
    ensures var text := pre + (JsonOpen + (js + (Fence + (mid + (ThinkOpen + (th + (ThinkClose + post)))))));
            ProcessThinkingResponse(text, decode)
            == (match decode(Strip(js))
                case Err(e) => Err(e)
                case Ok(v) => Ok((Strip(th), v)))
  {
    var rest := ThinkOpen + (th + (ThinkClose + post));
    var text := pre + (JsonOpen + (js + (Fence + (mid + rest))));
    JsonBlock(pre, js, mid + rest);
    var x := pre + (JsonOpen + (js + (Fence + mid)));
    Regroup(pre, JsonOpen, js, Fence, mid, rest);
    MarkersFree();
    FreeBlock(pre, JsonOpen, js, Fence, mid, '<');
    ThinkBlock(x, th, post);
    Assemble(text, js, th, decode);
  }

  /**
   * A reply with no "```json" at all fails with the JSON error, whether or not it holds a
   * thinking block: that check comes first.
   */
  lemma MissingJsonFirst<T>(text: string, decode: string -> Result<T>)
    requires !IsInfix(JsonOpen, text)
    ensures ProcessThinkingResponse(text, decode) == Err(ValueError("No valid JSON found in response"))
  {
    FindIsInfix(text, JsonOpen);
  }

  /** A reply with an answer but no "<think>" fails with the thinking error. */
  lemma MissingThinking<T>(text: string, decode: string -> Result<T>)
    requires JsonPayload(text).Some? && !IsInfix(ThinkOpen, text)
    ensures ProcessThinkingResponse(text, decode) == Err(ValueError("No valid thinking found in response"))
  {
    FindIsInfix(text, ThinkOpen);
  }
}
