/** A signing library that meets the assumptions made of it. */
module Signer {
  import opened Text
  import opened Library
  import opened Token

  // ---- An encoding that can be read back ----

  /** A number ends in a full stop, a text in a comma, a list in a semicolon. */
  function Number(n: nat): string {
    Unary(n) + "."
  }

  /** What is written first is read first, whatever follows. */
  lemma NumberFirst(m: nat, x: string, n: nat, y: string)
    requires Number(m) + x == Number(n) + y
    ensures m == n && x == y
  {
    var s, t := Number(m) + x, Number(n) + y;
    assert s[m] == '.' && t[n] == '.';
    assert forall i :: 0 <= i < m ==> s[i] == '1';
    assert forall i :: 0 <= i < n ==> t[i] == '1';
    assert m == n;
    assert x == s[m + 1..] == t[n + 1..] == y;
  }

  function Integer(i: int): string {
    Number(if i >= 0 then 2 * i else -2 * i - 1)
  }

  function Words(s: string): string {
    if s == "" then "," else Number(s[0] as nat) + Words(s[1..])
  }

  /** The first character tells whether a text, or a list, ends here. */
  lemma WordsHead(s: string, x: string)
    ensures Words(s) + x != "" && ((Words(s) + x)[0] == ',' <==> s == "") && (Words(s) + x)[0] in "1.,"
  {
  }

  lemma {:induction false} WordsFirst(s: string, x: string, t: string, y: string)
    requires Words(s) + x == Words(t) + y
    ensures s == t && x == y
  {
    WordsHead(s, x);
    WordsHead(t, y);
    if s == "" {
      assert x == (Words(s) + x)[1..] == (Words(t) + y)[1..] == y;
    } else {
      assert Words(s) + x == Number(s[0] as nat) + (Words(s[1..]) + x);
      assert Words(t) + y == Number(t[0] as nat) + (Words(t[1..]) + y);
      NumberFirst(s[0] as nat, Words(s[1..]) + x, t[0] as nat, Words(t[1..]) + y);
      WordsFirst(s[1..], x, t[1..], y);
      assert s == [s[0]] + s[1..] && t == [t[0]] + t[1..];
    }
  }

  function List(l: seq<string>): string {
    if l == [] then ";" else Words(l[0]) + List(l[1..])
  }

  lemma ListHead(l: seq<string>, x: string)
    ensures List(l) + x != "" && ((List(l) + x)[0] == ';' <==> l == [])
  {
    if l != [] {
      WordsHead(l[0], List(l[1..]) + x);
      assert List(l) + x == Words(l[0]) + (List(l[1..]) + x);
    }
  }

  lemma {:induction false} ListFirst(s: seq<string>, x: string, t: seq<string>, y: string)
    requires List(s) + x == List(t) + y
    ensures s == t && x == y
  {
    ListHead(s, x);
    ListHead(t, y);
    if s == [] {
      assert x == (List(s) + x)[1..] == (List(t) + y)[1..] == y;
    } else {
      assert List(s) + x == Words(s[0]) + (List(s[1..]) + x);
      assert List(t) + y == Words(t[0]) + (List(t[1..]) + y);
      WordsFirst(s[0], List(s[1..]) + x, t[0], List(t[1..]) + y);
      ListFirst(s[1..], x, t[1..], y);
      assert s == [s[0]] + s[1..] && t == [t[0]] + t[1..];
    }
  }

  /** No character is white space. */
  predicate Solid(s: string) {
    forall i :: 0 <= i < |s| ==> s[i] in "1.,;"
  }

  lemma {:induction false} WordsSolid(s: string)
    ensures Solid(Words(s))
  {
    if s != "" {
      WordsSolid(s[1..]);
    }
  }

  lemma {:induction false} ListSolid(l: seq<string>)
    ensures Solid(List(l)) && List(l) != ""
  {
    if l != [] {
      WordsSolid(l[0]);
      ListSolid(l[1..]);
    }
  }

  // ---- The signer ----

  /** Everything a token says, and the secret it is signed with, as one list of texts. */
  function Parts(secret: string, claims: AuthClaims): seq<string> {
    [secret, claims.userId, claims.email, claims.issuer, claims.subject, Integer(claims.issuedAt),
     Integer(claims.expiresAt)] + claims.roles
  }

  lemma PartsInjective(secret: string, claims: AuthClaims, claims': AuthClaims)
    requires Parts(secret, claims) == Parts(secret, claims')
    ensures claims == claims'
  {
    var p, p' := Parts(secret, claims), Parts(secret, claims');
    assert p[5] == p'[5] && p[6] == p'[6];
    IntegerInjective(claims.issuedAt, claims'.issuedAt);
    IntegerInjective(claims.expiresAt, claims'.expiresAt);
    assert claims.roles == p[7..] == p'[7..] == claims'.roles;
    assert p[1] == p'[1] && p[2] == p'[2] && p[3] == p'[3] && p[4] == p'[4];
  }

  lemma IntegerInjective(i: int, j: int)
    requires Integer(i) == Integer(j)
    ensures i == j
  {
    var m, n := if i >= 0 then 2 * i else -2 * i - 1, if j >= 0 then 2 * j else -2 * j - 1;
    assert Number(m) + "" == Number(n) + "";
    NumberFirst(m, "", n, "");
  }

  /** Signs everything, and parses what was signed under the same secret. */
  ghost function UnarySigner(): Jwt {
    Jwt((secret, claims) => Parsed(List(Parts(secret, claims)), true),
        (secret, token) =>
          if claims :| List(Parts(secret, claims)) == token then Parsed(claims, true)
          else Parsed(AuthClaims("", "", [], "", "", 0, 0), false))
  }

  /** The assumption on the signing library can be met, by one that signs all claims. */
  lemma LawfulSignerExists()
    ensures JwtLawful(UnarySigner()) && forall secret, claims :: UnarySigner().sign(secret, claims).ok
  {
    var jwt := UnarySigner();
    forall secret, claims
      ensures jwt.parse(secret, jwt.sign(secret, claims).value) == Parsed(claims, true)
      ensures IsWord(jwt.sign(secret, claims).value)
    {
      SignedIsRead(secret, claims);
    }
  }

  lemma SignedIsRead(secret: string, claims: AuthClaims)
    ensures var token := List(Parts(secret, claims));
      UnarySigner().parse(secret, token) == Parsed(claims, true) && IsWord(token)
  {
    var token := List(Parts(secret, claims));
    ListSolid(Parts(secret, claims));
    forall claims' | List(Parts(secret, claims')) == token ensures claims' == claims {
      assert List(Parts(secret, claims')) + "" == token + "";
      ListFirst(Parts(secret, claims'), "", Parts(secret, claims), "");
      PartsInjective(secret, claims', claims);
    }
  }
}
