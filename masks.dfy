/**
 * The masking helpers `mask_phone` ... `mask_device` and the literal that
 * replaces a flagged address.  Each is a string transform built from Python
 * slicing, `split` and `join` (module PyStr).  `mask_upi` and `mask_email`
 * unpack `val.split("@")` into two names, which raises unless the value holds
 * exactly one '@'; `mask_passport` reads `val[0]`, which raises on "".  Those
 * are their preconditions.
 */
module Masks {
  import opened PyStr

  /** Written over a flagged address. */
  const RedactedMarker: string := "[REDACTED_PII]"

  // ---------------------------------------------------------------- phone

  /** `mask_phone`: first two characters, six X, last two characters. */
  function MaskPhone(v: string): (r: string)
    ensures |v| >= 2 ==> |r| == 10 && r[..2] == v[..2] && r[2..8] == "XXXXXX" && r[8..] == v[|v| - 2..]
    ensures |v| < 2 ==> r == v + "XXXXXX" + v
  {
    Take(v, 2) + "XXXXXX" + Last(v, 2)
  }

  /** Masking a masked phone number changes nothing (when the original had at
      least two characters; a shorter one grows on every pass). */
  lemma MaskPhoneIdempotent(v: string)
    requires |v| >= 2
    ensures MaskPhone(MaskPhone(v)) == MaskPhone(v)
  {
  }

  lemma MaskPhoneExample()
    ensures MaskPhone("9876543210") == "98XXXXXX10"
  {
  }

  // --------------------------------------------------------------- aadhar

  /** `mask_aadhar`: the first four characters of the value with its spaces
      removed, then " XXXX XXXX". */
  function MaskAadhar(v: string): (r: string)
    ensures |r| == Min(4, |v| - Count(v, ' ')) + 10
    ensures r[|r| - 10..] == " XXXX XXXX"
    ensures ' ' !in r[..|r| - 10]
  {
    Take(RemoveChar(v, ' '), 4) + " XXXX XXXX"
  }

  /** When the first four characters hold no space, they are what is kept,
      whatever spacing follows. */
  lemma {:induction false} MaskAadharKeepsFirstGroup(v: string)
    requires |v| >= 4 && ' ' !in v[..4]
    ensures MaskAadhar(v) == v[..4] + " XXXX XXXX"
  {
    assert v == v[..4] + v[4..];
    RemoveCharAppend(v[..4], v[4..], ' ');
  }

  lemma MaskAadharExample(a: string, b: string, c: string)
    requires a == "1234" && b == "5678" && c == "9012"
    ensures MaskAadhar(a + " " + b + " " + c) == "1234" + " XXXX XXXX"
  {
    var v := a + " " + b + " " + c;
    assert |a| == 4 && ' ' !in a by {}
    assert v[..4] == a;
    MaskAadharKeepsFirstGroup(v);
  }

  /** Masking a masked Aadhaar number changes nothing, once at least four
      non-space characters are present. */
  lemma {:induction false} MaskAadharIdempotent(v: string)
    requires |v| - Count(v, ' ') >= 4
    ensures MaskAadhar(MaskAadhar(v)) == MaskAadhar(v)
  {
    var r := MaskAadhar(v);
    var head := Take(RemoveChar(v, ' '), 4);
    assert |head| == 4 && ' ' !in head;
    assert r == head + " XXXX XXXX";
    MaskAadharKeepsFirstGroup(r);
    assert r[..4] == head;
  }

  // ------------------------------------------------------------- passport

  /** `mask_passport`: the first character, then seven X. */
  function MaskPassport(v: string): (r: string)
    requires v != []
    ensures |r| == 8 && r[0] == v[0] && r[1..] == "XXXXXXX"
  {
    [v[0]] + "XXXXXXX"
  }

  lemma MaskPassportIdempotent(v: string)
    requires v != []
    ensures MaskPassport(MaskPassport(v)) == MaskPassport(v)
  {
  }

  // ------------------------------------------------------------------ upi

  /** `val.split("@")` unpacks into exactly two names. */
  predicate HasSingleAt(v: string)
  {
    Count(v, '@') == 1
  }

  /** The user part of a UPI id as `mask_upi` rebuilds it. */
  function MaskUpiUser(user: string): string
  {
    Take(user, 2) + "XXX" + Last(user, 2)
  }

  /** `mask_upi`: split at the '@', keep two characters at each end of the
      user part around "XXX", keep the domain. */
  function MaskUpi(v: string): (r: string)
    requires HasSingleAt(v)
    ensures HasSingleAt(r)
    ensures SplitOn(r, '@')[1] == SplitOn(v, '@')[1]
    ensures SplitOn(r, '@')[0] == MaskUpiUser(SplitOn(v, '@')[0])
  {
    var parts := SplitOn(v, '@');
    var user, domain := parts[0], parts[1];
    var r := Take(user, 2) + "XXX" + Last(user, 2) + "@" + domain;
    SplitAtSeparator(MaskUpiUser(user), domain, '@');
    r
  }

  /** A separator-free front and back joined by one separator split back
      into exactly those two pieces. */
  lemma SplitAtSeparator(front: string, back: string, c: char)
    requires c !in front && c !in back
    ensures SplitOn(front + [c] + back, c) == [front, back]
    ensures Count(front + [c] + back, c) == 1
  {
    var parts := [front, back];
    assert Join([c], parts) == front + [c] + back;
    SplitOnJoin(parts, c);
  }

  /** With the '@' at index j, the mask states the kept characters directly
      in terms of the text before and after it. */
  lemma MaskUpiAt(v: string, j: nat)
    requires j < |v| && v[j] == '@' && '@' !in v[..j] && '@' !in v[j + 1..]
    ensures HasSingleAt(v)
    ensures MaskUpi(v) == Take(v[..j], 2) + "XXX" + Last(v[..j], 2) + "@" + v[j + 1..]
  {
    SplitOnOnce(v, '@', j);
  }

  /** Masking a masked UPI id changes nothing when its user part had at
      least two characters. */
  lemma MaskUpiIdempotent(v: string)
    requires HasSingleAt(v) && |SplitOn(v, '@')[0]| >= 2
    ensures MaskUpi(MaskUpi(v)) == MaskUpi(v)
  {
  }

  // ----------------------------------------------------------------- name

  /** One token of `mask_name`: its first character, then "XXX". */
  function MaskToken(p: string): (r: string)
    requires p != []
    ensures |r| == 4 && r[0] == p[0] && r[1..] == "XXX"
  {
    [p[0]] + "XXX"
  }

  /** The list comprehension of `mask_name`, over the tokens of `split()`. */
  function MaskTokens(ws: seq<string>): (ms: seq<string>)
    requires forall i :: 0 <= i < |ws| ==> ws[i] != []
    ensures |ms| == |ws|
    ensures forall i :: 0 <= i < |ws| ==> ms[i] == MaskToken(ws[i])
  {
    seq(|ws|, i requires 0 <= i < |ws| => MaskToken(ws[i]))
  }

  /** `mask_name`: every whitespace-separated token becomes its first
      character and "XXX", rejoined with single spaces. */
  function MaskName(v: string): (r: string)
    ensures Words(r) == MaskTokens(Words(v))
    ensures r == Join(" ", Words(r))
  {
    var ms := MaskTokens(Words(v));
    assert forall i :: 0 <= i < |ms| ==> IsToken(ms[i]) by {
      forall i | 0 <= i < |ms| ensures IsToken(ms[i]) {
        assert ms[i][0] == Words(v)[i][0];
      }
    }
    WordsJoin(ms);
    Join(" ", ms)
  }

  /** The name mask keeps the number of tokens and each token's initial. */
  lemma MaskNameTokens(v: string)
    ensures |Words(MaskName(v))| == |Words(v)|
    ensures forall i :: 0 <= i < |Words(v)| ==> Words(MaskName(v))[i] == [Words(v)[i][0]] + "XXX"
  {
  }

  /** Masking a masked name changes nothing. */
  lemma MaskNameIdempotent(v: string)
    ensures MaskName(MaskName(v)) == MaskName(v)
  {
    var ms := MaskTokens(Words(v));
    assert Words(MaskName(v)) == ms;
    assert MaskTokens(ms) == ms;
  }

  lemma MaskNameExample()
    ensures MaskName("Jane Doe") == "JXXX DXXX"
  {
    var ws := ["Jane", "Doe"];
    assert Join(" ", ws) == "Jane Doe";
    WordsJoin(ws);
    var ms := MaskTokens(ws);
    assert ms[0] == "JXXX" && ms[1] == "DXXX";
    assert ms == ["JXXX", "DXXX"];
    assert Join(" ", ms) == "JXXX DXXX";
  }

  // ---------------------------------------------------------------- email

  /** `mask_email`: split at the '@', keep the local part's first two
      characters and "XXX", keep the domain. */
  function MaskEmail(v: string): (r: string)
    requires HasSingleAt(v)
    ensures HasSingleAt(r)
    ensures SplitOn(r, '@')[1] == SplitOn(v, '@')[1]
    ensures SplitOn(r, '@')[0] == Take(SplitOn(v, '@')[0], 2) + "XXX"
  {
    var parts := SplitOn(v, '@');
    var local, domain := parts[0], parts[1];
    var r := local[..Min(2, |local|)] + "XXX@" + domain;
    assert r == (Take(local, 2) + "XXX") + "@" + domain;
    SplitAtSeparator(Take(local, 2) + "XXX", domain, '@');
    r
  }

  lemma MaskEmailAt(v: string, j: nat)
    requires j < |v| && v[j] == '@' && '@' !in v[..j] && '@' !in v[j + 1..]
    ensures HasSingleAt(v)
    ensures MaskEmail(v) == Take(v[..j], 2) + "XXX@" + v[j + 1..]
  {
    SplitOnOnce(v, '@', j);
  }

  /** A value built as local + "@" + domain masks to the kept part of the
      local name, "XXX@" and the domain. */
  lemma MaskEmailParts(local: string, domain: string)
    requires '@' !in local && '@' !in domain
    ensures HasSingleAt(local + "@" + domain)
    ensures MaskEmail(local + "@" + domain) == Take(local, 2) + "XXX@" + domain
  {
    SplitAtSeparator(local, domain, '@');
  }

  lemma MaskEmailExample(local: string, domain: string)
    requires local == "jane" && domain == "x.com"
    ensures HasSingleAt(local + "@" + domain)
    ensures MaskEmail(local + "@" + domain) == "ja" + "XXX@" + domain
  {
    assert '@' !in local && '@' !in domain && Take(local, 2) == "ja" by {}
    MaskEmailParts(local, domain);
  }

  /** Masking a masked email changes nothing when its local part had at
      least two characters. */
  lemma MaskEmailIdempotent(v: string)
    requires HasSingleAt(v) && |SplitOn(v, '@')[0]| >= 2
    ensures MaskEmail(MaskEmail(v)) == MaskEmail(v)
  {
  }

  // ------------------------------------------------------------------- ip

  /** `octets[:2]` for a list of pieces. */
  function TakePieces(ps: seq<string>, n: nat): (r: seq<string>)
    ensures |r| == Min(n, |ps|) && r == ps[..|r|]
  {
    if n <= |ps| then ps[..n] else ps
  }

  /** `mask_ip`: the first two dot-separated pieces, then "x" twice. */
  function MaskIp(v: string): (r: string)
    ensures SplitOn(r, '.') == TakePieces(SplitOn(v, '.'), 2) + ["x", "x"]
  {
    var parts := TakePieces(SplitOn(v, '.'), 2) + ["x", "x"];
    SplitOnJoin(parts, '.');
    Join(".", parts)
  }

  /** `sep.join` of four pieces. */
  lemma JoinFour(sep: string, a: string, b: string, c: string, d: string)
    ensures Join(sep, [a, b, c, d]) == a + sep + b + sep + c + sep + d
  {
    var ps := [a, b, c, d];
    assert ps[1..] == [b, c, d] && ps[1..][1..] == [c, d] && ps[1..][1..][1..] == [d];
    assert Join(sep, [c, d]) == c + sep + d;
    assert Join(sep, [b, c, d]) == b + sep + (c + sep + d);
    assert Join(sep, ps) == a + sep + (b + sep + (c + sep + d));
  }

  /** On a dotted quad a.b.c.d the mask is a.b.x.x. */
  lemma MaskIpDottedQuad(a: string, b: string, c: string, d: string)
    requires '.' !in a && '.' !in b && '.' !in c && '.' !in d
    ensures MaskIp(a + "." + b + "." + c + "." + d) == a + "." + b + ".x.x"
  {
    JoinFour(".", a, b, c, d);
    SplitOnJoin([a, b, c, d], '.');
    assert [a, b, c, d][..2] == [a, b];
    assert [a, b] + ["x", "x"] == [a, b, "x", "x"];
    JoinFour(".", a, b, "x", "x");
  }

  /** Masking a masked address changes nothing when the original held a dot
      (a dot-free value gains one more ".x" on every pass). */
  lemma MaskIpIdempotent(v: string)
    requires '.' in v
    ensures MaskIp(MaskIp(v)) == MaskIp(v)
  {
    var ps := SplitOn(v, '.');
    assert |ps| >= 2;
    var parts := TakePieces(ps, 2) + ["x", "x"];
    assert SplitOn(MaskIp(v), '.') == parts;
    assert TakePieces(parts, 2) + ["x", "x"] == parts;
  }

  // --------------------------------------------------------------- device

  /** `mask_device`: first three characters, "XXXX", last three characters. */
  function MaskDevice(v: string): (r: string)
    ensures |v| >= 3 ==> |r| == 10 && r[..3] == v[..3] && r[3..7] == "XXXX" && r[7..] == v[|v| - 3..]
    ensures |v| < 3 ==> r == v + "XXXX" + v
  {
    Take(v, 3) + "XXXX" + Last(v, 3)
  }

  lemma MaskDeviceIdempotent(v: string)
    requires |v| >= 3
    ensures MaskDevice(MaskDevice(v)) == MaskDevice(v)
  {
  }
}
