/** The Photo record that the list component exchanges with the REST endpoint,
    and the completeness check it applies to a draft before a create or an update.
    JavaScript numbers are modelled as `int`; strings as `seq<char>`. */
module Photos {

  datatype Option<T> = None | Some(value: T)

  /** The JSON shape `{ id?, albumId, title, url, thumbnailUrl }`; `id` is optional
      until the server assigns one. */
  datatype Photo = Photo(id: Option<int>, albumId: int, title: string, url: string, thumbnailUrl: string)

  /** The outcome of one HTTP request: its `next` callback with the response body,
      or its `error` callback. */
  datatype Reply<T> = Ok(body: T) | Failed

  /** The blank form the component starts with and returns to after a create. */
  const EmptyDraft: Photo := Photo(None, 0, "", "", "")

  /** The characters `String.prototype.trim` removes: the ECMAScript WhiteSpace
      code points (TAB, VT, FF, SP, NBSP, ZWNBSP and the Unicode Zs category)
      and the LineTerminator code points (LF, CR, LS, PS). */
  function IsWhitespace(c: char): (r: bool)
    ensures r ==> !(0x21 <= c as int <= 0x7E)
  {
    var n := c as int;
    n == 0x09 || n == 0x0A || n == 0x0B || n == 0x0C || n == 0x0D || n == 0x20 ||
    n == 0xA0 || n == 0x1680 || (0x2000 <= n <= 0x200A) || n == 0x2028 || n == 0x2029 ||
    n == 0x202F || n == 0x205F || n == 0x3000 || n == 0xFEFF
  }

  /** `s` with its leading whitespace removed. */
  function TrimStart(s: string): (r: string)
    ensures |r| <= |s| && r == s[|s| - |r|..]
    ensures forall i :: 0 <= i < |s| - |r| ==> IsWhitespace(s[i])
    ensures r != [] ==> !IsWhitespace(r[0])
  {
    if s != [] && IsWhitespace(s[0]) then TrimStart(s[1..]) else s
  }

  /** `s` with its trailing whitespace removed. */
  function TrimEnd(s: string): (r: string)
    ensures |r| <= |s| && r == s[..|r|]
    ensures forall i :: |r| <= i < |s| ==> IsWhitespace(s[i])
    ensures r != [] ==> !IsWhitespace(r[|r| - 1])
  {
    if s != [] && IsWhitespace(s[|s| - 1]) then TrimEnd(s[..|s| - 1]) else s
  }

  /** `s.trim()`: whitespace removed from both ends. */
  function Trim(s: string): (r: string)
    ensures |r| <= |s|
    ensures r != [] ==> !IsWhitespace(r[0]) && !IsWhitespace(r[|r| - 1])
  {
    TrimEnd(TrimStart(s))
  }

  /** Some character of `s` is not whitespace. */
  predicate HasVisibleChar(s: string) {
    exists i :: 0 <= i < |s| && !IsWhitespace(s[i])
  }

  /** `s.trim()` is truthy exactly when `s` holds a non-whitespace character. */
  lemma TrimNonEmptyIff(s: string)
    ensures Trim(s) != [] <==> HasVisibleChar(s)
  {
  }

  /** `s.trim()` is the middle of `s` left after cutting a prefix and a suffix
      made only of whitespace. */
  lemma TrimIsInfix(s: string)
    ensures var lo, r := |s| - |TrimStart(s)|, Trim(s);
            lo + |r| <= |s| && r == s[lo..lo + |r|] &&
            (forall i :: 0 <= i < lo ==> IsWhitespace(s[i])) &&
            (forall i :: lo + |r| <= i < |s| ==> IsWhitespace(s[i]))
  {
  }

  /** The check `addPhoto` and `confirmEdit` make before sending a draft:
      a positive album id and three strings whose `trim()` is non-empty. */
  function IsComplete(p: Photo): (ok: bool)
    ensures ok ==> p.albumId > 0 && p.title != [] && p.url != [] && p.thumbnailUrl != []
  {
    p.albumId > 0 && Trim(p.title) != [] && Trim(p.url) != [] && Trim(p.thumbnailUrl) != []
  }

  /** A draft passes validation exactly when its album id is positive and each of
      its three strings holds a non-whitespace character. */
  lemma IsCompleteIff(p: Photo)
    ensures IsComplete(p) <==>
              p.albumId > 0 && HasVisibleChar(p.title) && HasVisibleChar(p.url) && HasVisibleChar(p.thumbnailUrl)
  {
  }

  /** The blank form fails the completeness check. */
  lemma EmptyDraftIncomplete()
    ensures !IsComplete(EmptyDraft)
  {
  }

  /** The record `addPhoto` puts in the list: `{ ...draft, id: response.id || fallback }`,
      where `fallback` stands for `Math.floor(Math.random() * 10000)`. */
  function Created(draft: Photo, responseId: Option<int>, fallback: int): (c: Photo)
    requires 0 <= fallback < 10000
    ensures c.albumId == draft.albumId && c.title == draft.title
    ensures c.url == draft.url && c.thumbnailUrl == draft.thumbnailUrl
    ensures c.id.Some?
    ensures responseId.Some? && responseId.value != 0 ==> c.id == responseId
    ensures responseId.None? || responseId.value == 0 ==> 0 <= c.id.value < 10000
  {
    draft.(id := Some(if responseId.Some? && responseId.value != 0 then responseId.value else fallback))
  }
}
