/**
 * The token the handler hands to its verifier: the second field of the
 * `Authorization` header split on single spaces. The first field (the
 * scheme word, `Bearer` by convention) is never looked at.
 */
module Bearer {
  import opened Options
  import opened Text

  /** `request.headers.get("authorization") || ""`: an absent header reads
      as the empty string. */
  function HeaderText(header: Option<string>): string {
    header.GetOr("")
  }

  /** `authorization.split(" ")[1]`: `None` stands for JavaScript's
      `undefined` when the header holds no space at all. */
  function TokenOf(header: Option<string>): (t: Option<string>)
    ensures t.None? <==> ' ' !in HeaderText(header)
    ensures t.Some? ==> ' ' !in t.value
  {
    var fields := Split(HeaderText(header), ' ');
    if |fields| >= 2 then Some(fields[1]) else None
  }

  /** Whatever word precedes the first space, the same token comes out:
      `Token xyz` yields `xyz` just as `Bearer xyz` does. */
  lemma SchemeNotChecked(scheme1: string, scheme2: string, rest: string)
    requires ' ' !in scheme1 && ' ' !in scheme2
    ensures TokenOf(Some(scheme1 + " " + rest)) == TokenOf(Some(scheme2 + " " + rest))
  {
    var tail := " " + rest;
    assert tail[1..] == rest;
    assert scheme1 + " " + rest == scheme1 + tail;
    assert scheme2 + " " + rest == scheme2 + tail;
    var after := Split(tail, ' ');
    assert after == [[]] + Split(rest, ' ');
    SplitSeparatorFreePrefix(scheme1, tail, ' ');
    SplitSeparatorFreePrefix(scheme2, tail, ' ');
    assert Split(scheme1 + tail, ' ')[1] == after[1];
    assert Split(scheme2 + tail, ' ')[1] == after[1];
  }

  /** The token is exactly the run of characters between the first space
      and the next space (or the end of the header). */
  lemma TokenIsSecondField(scheme: string, token: string, rest: string)
    requires ' ' !in scheme && ' ' !in token
    requires rest == [] || rest[0] == ' '
    ensures TokenOf(Some(scheme + " " + token + rest)) == Some(token)
  {
    var tail := " " + token + rest;
    assert scheme + " " + token + rest == scheme + tail;
    assert tail[1..] == token + rest;
    SplitSeparatorFreePrefix(scheme, tail, ' ');
    SplitSeparatorFreePrefix(token, rest, ' ');
    assert token + Split(rest, ' ')[0] == token;
  }

  /** No header, or one without a space, yields no token at all. */
  lemma NoSpaceNoToken(header: Option<string>)
    ensures header.None? ==> TokenOf(header).None?
    ensures header.Some? && ' ' !in header.value ==> TokenOf(header).None?
  {
  }
}
