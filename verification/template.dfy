/**
 The payload renderer `process_template` (src/main.rs:263-276).

 For each character of the charset, in order, the candidate token is the
 known prefix followed by that character; the template is instantiated once
 per candidate by literal replacement of the callback marker and then of the
 token marker, and the instantiations are joined in charset order. The URL
 builder `craft_callback_url` comes from the `url` crate and is a parameter.
 */
module Template {
  import opened Text
  import opened CssEscape

  const CallbackMarker: string := "{{:callback:}}"
  const TokenMarker: string := "{{:token:}}"

  /** `craft_callback_url(host, id, token).to_string()`, supplied from outside the model. */
  type CallbackUrl = (string, string, string) -> string

  /** The template instantiated for one candidate token. */
  function Fragment(template: string, url: CallbackUrl, host: string, id: string, candidate: string): string {
    ReplaceAll(ReplaceAll(template, CallbackMarker, url(host, id, candidate)), TokenMarker, EscapeChain(candidate))
  }

  /** One instantiation per character of `charset`, in order; the `i`-th uses candidate `known + [charset[i]]`. */
  function Fragments(template: string, url: CallbackUrl, host: string, id: string, charset: string, known: string): seq<string> {
    seq(|charset|, i requires 0 <= i < |charset| => Fragment(template, url, host, id, known + [charset[i]]))
  }

  /** The reference result of `process_template`: the instantiations joined in charset order. */
  function Render(template: string, url: CallbackUrl, host: string, id: string, charset: string, known: string): string {
    Concat(Fragments(template, url, host, id, charset, known))
  }

  /** `process_template` as written: one loop iteration per charset character, appending to `result`. */
  method ProcessTemplate(template: string, url: CallbackUrl, host: string, id: string, charset: string, known: string)
    returns (result: string)
    ensures result == Render(template, url, host, id, charset, known)
  {
    result := "";
    var n := 0;
    ghost var all := Fragments(template, url, host, id, charset, known);
    while n < |charset|
      invariant 0 <= n <= |charset|
      invariant result == Concat(all[..n])
    {
      var chr := charset[n];
      var tokenPayload := known + [chr];
      var callback := url(host, id, tokenPayload);
      result := result + ReplaceAll(ReplaceAll(template, CallbackMarker, callback), TokenMarker, EscapeChain(tokenPayload));
      assert all[..n + 1][..n] == all[..n];
      n := n + 1;
    }
    assert all[..|charset|] == all;
  }

  /**
   Rendering for `charset + [c]` is rendering for `charset` followed by the
   instantiation for candidate `known + [c]`: fragments come in charset order.
   */
  lemma RenderAppend(template: string, url: CallbackUrl, host: string, id: string, charset: string, known: string, c: char)
    ensures Render(template, url, host, id, charset + [c], known)
         == Render(template, url, host, id, charset, known) + Fragment(template, url, host, id, known + [c])
  {
    var longer := Fragments(template, url, host, id, charset + [c], known);
    assert longer[..|charset|] == Fragments(template, url, host, id, charset, known);
  }

  /** An empty charset renders nothing. */
  lemma RenderEmptyCharset(template: string, url: CallbackUrl, host: string, id: string, known: string)
    ensures Render(template, url, host, id, [], known) == []
  {
  }

  /** A template with neither marker is repeated once per charset character. */
  lemma RenderWithoutMarkers(template: string, url: CallbackUrl, host: string, id: string, charset: string, known: string)
    requires !Contains(template, CallbackMarker) && !Contains(template, TokenMarker)
    ensures Render(template, url, host, id, charset, known) == Repeat(template, |charset|)
    ensures |Render(template, url, host, id, charset, known)| == |charset| * |template|
  {
    var fs := Fragments(template, url, host, id, charset, known);
    forall i | 0 <= i < |fs| ensures fs[i] == template {
      var candidate := known + [charset[i]];
      ReplaceAbsent(template, CallbackMarker, url(host, id, candidate));
      ReplaceAbsent(template, TokenMarker, EscapeChain(candidate));
    }
    ConcatConstant(fs, template);
  }

  /**
   The token marker is replaced by the candidate put through the escaper: a
   template that is just the token marker instantiates to the escaped candidate.
   */
  lemma TokenMarkerFragment(url: CallbackUrl, host: string, id: string, candidate: string)
    ensures Fragment(TokenMarker, url, host, id, candidate) == Escape(candidate)
  {
    var esc := EscapeChain(candidate);
    var t1 := ReplaceAll(TokenMarker, CallbackMarker, url(host, id, candidate));
    assert !Contains(TokenMarker, CallbackMarker) by {
      assert |TokenMarker| < |CallbackMarker|;
    }
    ReplaceAbsent(TokenMarker, CallbackMarker, url(host, id, candidate));
    assert t1 == TokenMarker;
    assert TokenMarker[..|TokenMarker|] == TokenMarker;
    assert TokenMarker[|TokenMarker|..] == [];
    assert ReplaceAll([], TokenMarker, esc) == [];
  }

  /**
   A template that is just the callback marker renders the callback URL of the
   candidate, provided that URL does not itself contain the token marker (the
   token marker is replaced second, inside the substituted URL too).
   */
  lemma CallbackMarkerFragment(url: CallbackUrl, host: string, id: string, candidate: string)
    requires !Contains(url(host, id, candidate), TokenMarker)
    ensures Fragment(CallbackMarker, url, host, id, candidate) == url(host, id, candidate)
  {
    var u := url(host, id, candidate);
    assert CallbackMarker[..|CallbackMarker|] == CallbackMarker;
    assert CallbackMarker[|CallbackMarker|..] == [];
    assert ReplaceAll([], CallbackMarker, u) == [];
    assert ReplaceAll(CallbackMarker, CallbackMarker, u) == u;
    ReplaceAbsent(u, TokenMarker, EscapeChain(candidate));
  }
}
