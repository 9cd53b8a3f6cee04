/**
 * The classifier `detect_pii`, the redactor `redact_record` and the
 * aggregate `is_pii` of the PII detector.  A record maps field names to
 * values; values are modelled as strings, and a value is truthy when it is
 * non-empty.  Nine field names are recognised: four standalone ones, flagged
 * when their own value matches their pattern, and five combinatorial ones,
 * flagged together once two or more of them are eligible (with the one
 * exception that a present, non-empty name is flagged on its own).
 *
 * The flag dictionary of `detect_pii` always holds exactly the nine
 * recognised names, so it is modelled as a sequence of nine booleans in the
 * order of the source; the outcomes of the nine tests `detect_pii` makes are
 * a value of the same shape.
 */
module Detector {
  import opened PyStr
  import opened Patterns
  import opened Masks

  type Record = map<string, string>

  /** The nine recognised field names. */
  datatype Field = Phone | Aadhar | Passport | UpiId | Name | Email | Address | IpAddress | DeviceId

  /** The record key of a field. */
  function Key(f: Field): string
  {
    match f
    case Phone => "phone"
    case Aadhar => "aadhar"
    case Passport => "passport"
    case UpiId => "upi_id"
    case Name => "name"
    case Email => "email"
    case Address => "address"
    case IpAddress => "ip_address"
    case DeviceId => "device_id"
  }

  datatype Option<T> = None | Some(value: T)

  /** The field a record key names, if it is one of the nine. */
  function FieldOf(key: string): (r: Option<Field>)
    ensures r.Some? ==> Key(r.value) == key
    ensures forall f :: Key(f) == key ==> r == Some(f)
  {
    if key == "phone" then Some(Phone)
    else if key == "aadhar" then Some(Aadhar)
    else if key == "passport" then Some(Passport)
    else if key == "upi_id" then Some(UpiId)
    else if key == "name" then Some(Name)
    else if key == "email" then Some(Email)
    else if key == "address" then Some(Address)
    else if key == "ip_address" then Some(IpAddress)
    else if key == "device_id" then Some(DeviceId)
    else None
  }

  /** Whether a field is one of the four flagged on their own pattern. */
  predicate IsStandalone(f: Field)
  {
    match f
    case Phone | Aadhar | Passport | UpiId => true
    case _ => false
  }

  /** The position of a field in the source's order of the flag dictionary. */
  function Index(f: Field): (i: nat)
    ensures i < 9 && FieldAt(i) == f
    ensures IsStandalone(f) <==> i < 4
  {
    match f
    case Phone => 0
    case Aadhar => 1
    case Passport => 2
    case UpiId => 3
    case Name => 4
    case Email => 5
    case Address => 6
    case IpAddress => 7
    case DeviceId => 8
  }

  /** The field at a position of the flag dictionary. */
  function FieldAt(i: nat): Field
  {
    if i == 0 then Phone else if i == 1 then Aadhar else if i == 2 then Passport
    else if i == 3 then UpiId else if i == 4 then Name else if i == 5 then Email
    else if i == 6 then Address else if i == 7 then IpAddress else DeviceId
  }

  /** Every position of the flag dictionary holds the field it names. */
  lemma FieldAtIndex(i: nat)
    requires i < 9
    ensures Index(FieldAt(i)) == i
  {
  }

  /** One boolean per recognised field, in the order of `Index`. */
  type PerField = s: seq<bool> | |s| == 9 witness [false, false, false, false, false, false, false, false, false]

  /** The flag dictionary. */
  type Flags = PerField

  /** The outcomes of the nine tests. */
  type Tests = PerField

  /** `flags[f]`. */
  function Get(m: PerField, f: Field): bool
  {
    m[Index(f)]
  }

  /** `flags[f] = True`: that flag set, the other eight unchanged. */
  function Set(m: PerField, f: Field): (r: PerField)
    ensures forall g :: Get(r, g) == (Get(m, g) || g == f)
  {
    m[Index(f) := true]
  }

  /** The nine flags `detect_pii` starts from, all false. */
  const NoFlags: Flags := [false, false, false, false, false, false, false, false, false]

  /** Two maps that agree on every field are equal. */
  lemma PerFieldExtensional(a: PerField, b: PerField)
    requires forall f :: Get(a, f) == Get(b, f)
    ensures a == b
  {
    forall i | 0 <= i < 9 ensures a[i] == b[i] {
      FieldAtIndex(i);
      assert Get(a, FieldAt(i)) == Get(b, FieldAt(i));
    }
  }

  // ------------------------------------------------------------ detection

  /** The nine tests of `detect_pii` on a record: the key is present and its
      pattern matches (phone, aadhar, passport, upi_id, email, ip_address), or
      the key is present and its value is non-empty (name, address,
      device_id). */
  function TestsOf(data: Record): Tests
  {
    ["phone" in data && PhoneMatch(data["phone"]),
     "aadhar" in data && AadharMatch(data["aadhar"]),
     "passport" in data && PassportMatch(data["passport"]),
     "upi_id" in data && UpiMatch(data["upi_id"]),
     "name" in data && data["name"] != "",
     "email" in data && EmailMatch(data["email"]),
     "address" in data && data["address"] != "",
     "ip_address" in data && IpMatch(data["ip_address"]),
     "device_id" in data && data["device_id"] != ""]
  }

  /** A test passes only when its key is present. */
  lemma TestNeedsKey(data: Record, f: Field)
    requires Get(TestsOf(data), f)
    ensures Key(f) in data
  {
  }

  /** A standalone field is present and its value matches its own pattern. */
  predicate StandaloneHit(data: Record, f: Field)
  {
    IsStandalone(f) && Get(TestsOf(data), f)
  }

  /** A combinatorial field is eligible: present and non-empty for name,
      address and device_id, present and matching its pattern for email and
      ip_address. */
  predicate Eligible(data: Record, f: Field)
  {
    !IsStandalone(f) && Get(TestsOf(data), f)
  }

  function Indicator(b: bool): nat { if b then 1 else 0 }

  /** How many of the five combinatorial tests passed. */
  function CombinatorialCount(t: Tests): nat
  {
    Indicator(Get(t, Name)) + Indicator(Get(t, Email)) + Indicator(Get(t, Address))
    + Indicator(Get(t, IpAddress)) + Indicator(Get(t, DeviceId))
  }

  /** The detection rule on the test outcomes: a standalone field and the
      name are flagged when their test passes; the other combinatorial fields
      when their test passes and more than one combinatorial test passed. */
  predicate Rule(t: Tests, f: Field)
  {
    Get(t, f) && (IsStandalone(f) || f == Name || CombinatorialCount(t) > 1)
  }

  /** The flag of field f on a record. */
  predicate Flagged(data: Record, f: Field)
  {
    Rule(TestsOf(data), f)
  }

  /** The flags `detect_pii` returns, as a specification: every field obeys
      the detection rule. */
  function Classify(data: Record): (flags: Flags)
    ensures forall f :: Get(flags, f) == Flagged(data, f)
  {
    var t := TestsOf(data);
    var many := CombinatorialCount(t) > 1;
    seq(9, i requires 0 <= i < 9 => t[i] && (i < 5 || many))
  }

  /** `detect_pii`, lines 55-69: nine false flags, then each standalone flag
      set when its test passed. */
  method StandaloneFlags(t: Tests) returns (flags: Flags)
    ensures forall f :: Get(flags, f) == (IsStandalone(f) && Get(t, f))
  {
    flags := NoFlags;
    if Get(t, Phone) {
      flags := Set(flags, Phone);
    }
    if Get(t, Aadhar) {
      flags := Set(flags, Aadhar);
    }
    if Get(t, Passport) {
      flags := Set(flags, Passport);
    }
    if Get(t, UpiId) {
      flags := Set(flags, UpiId);
    }
  }

  /** `detect_pii`, lines 72-83: set the name flag when the name test passed,
      and list the combinatorial fields whose test passed, in the source's
      order. */
  method CollectCombinatorial(t: Tests, flags0: Flags) returns (flags: Flags, combinatorial: seq<Field>)
    ensures flags == if Get(t, Name) then Set(flags0, Name) else flags0
    ensures forall f :: f in combinatorial <==> !IsStandalone(f) && Get(t, f)
    ensures |combinatorial| == CombinatorialCount(t)
  {
    flags := flags0;
    combinatorial := [];
    if Get(t, Name) {
      flags := Set(flags, Name);
      combinatorial := combinatorial + [Name];
    }
    if Get(t, Email) {
      combinatorial := combinatorial + [Email];
    }
    assert forall f :: f in combinatorial <==> (f == Name && Get(t, Name)) || (f == Email && Get(t, Email));
    if Get(t, Address) {
      combinatorial := combinatorial + [Address];
    }
    assert forall f :: f in combinatorial <==>
      (f == Name && Get(t, Name)) || (f == Email && Get(t, Email)) || (f == Address && Get(t, Address));
    if Get(t, IpAddress) {
      combinatorial := combinatorial + [IpAddress];
    }
    assert forall f :: f in combinatorial <==>
      (f == Name && Get(t, Name)) || (f == Email && Get(t, Email)) || (f == Address && Get(t, Address))
      || (f == IpAddress && Get(t, IpAddress));
    if Get(t, DeviceId) {
      combinatorial := combinatorial + [DeviceId];
    }
  }

  /** `detect_pii`, lines 86-88: when more than one field was collected, set
      the flag of every collected field; otherwise change nothing. */
  method MarkCombinatorial(flags0: Flags, combinatorial: seq<Field>) returns (flags: Flags)
    ensures forall f :: Get(flags, f) == (Get(flags0, f) || (|combinatorial| > 1 && f in combinatorial))
  {
    flags := flags0;
    if |combinatorial| > 1 {
      var i := 0;
      while i < |combinatorial|
        invariant 0 <= i <= |combinatorial|
        invariant forall f :: Get(flags, f) == (Get(flags0, f) || f in combinatorial[..i])
      {
        flags := Set(flags, combinatorial[i]);
        i := i + 1;
        assert combinatorial[..i] == combinatorial[..i - 1] + [combinatorial[i - 1]];
      }
      assert combinatorial[..i] == combinatorial;
    }
  }

  /** `detect_pii`: the nine tests, the standalone flags, the name flag, and
      the combinatorial flags once more than one combinatorial field is
      eligible. */
  method DetectPii(data: Record) returns (flags: Flags)
    ensures flags == Classify(data)
  {
    var t := TestsOf(data);
    flags := StandaloneFlags(t);
    var combinatorial;
    flags, combinatorial := CollectCombinatorial(t, flags);
    ghost var before := flags;
    flags := MarkCombinatorial(flags, combinatorial);
    forall f ensures Get(flags, f) == Get(Classify(data), f) {
      assert Get(before, f) == ((IsStandalone(f) && Get(t, f)) || (f == Name && Get(t, Name)));
    }
    PerFieldExtensional(flags, Classify(data));
  }

  /** `any(flags.values())`: some flag is set. */
  function IsPii(flags: Flags): (b: bool)
    ensures b <==> exists f :: Get(flags, f)
  {
    if true in flags then
      var i :| 0 <= i < 9 && flags[i];
      FieldAtIndex(i);
      assert Get(flags, FieldAt(i));
      true
    else
      false
  }

  // ------------------------------------------------------------ redaction

  /** `flags.get(key)` is truthy: the key names a field whose flag is set. */
  predicate IsFlagged(flags: Flags, key: string)
  {
    FieldOf(key).Some? && Get(flags, FieldOf(key).value)
  }

  /** The mask of field f can be computed on val without raising:
      `mask_passport` indexes the first character, and `mask_upi` and
      `mask_email` unpack `split("@")` into exactly two parts. */
  predicate Maskable(f: Field, val: string)
  {
    match f
    case Passport => val != []
    case UpiId => HasSingleAt(val)
    case Email => HasSingleAt(val)
    case _ => true
  }

  /** The value a flagged field is overwritten with. */
  function MaskFor(f: Field, val: string): (r: string)
    requires Maskable(f, val)
    ensures f == Address ==> r == RedactedMarker
  {
    match f
    case Phone => MaskPhone(val)
    case Aadhar => MaskAadhar(val)
    case Passport => MaskPassport(val)
    case UpiId => MaskUpi(val)
    case Name => MaskName(val)
    case Email => MaskEmail(val)
    case Address => RedactedMarker
    case IpAddress => MaskIp(val)
    case DeviceId => MaskDevice(val)
  }

  /** No flagged key of the record holds a value its mask would raise on. */
  predicate CanRedact(data: Record, flags: Flags)
  {
    forall k :: k in data && IsFlagged(flags, k) ==> Maskable(FieldOf(k).value, data[k])
  }

  /** The value `redact_record` leaves at key k. */
  function RedactedValue(data: Record, flags: Flags, k: string): string
    requires k in data && CanRedact(data, flags)
  {
    if IsFlagged(flags, k) then MaskFor(FieldOf(k).value, data[k]) else data[k]
  }

  /** The record `redact_record` returns, as a specification: the same keys,
      unflagged and unrecognised keys untouched, every flagged key replaced
      by its field's mask. */
  function Redacted(data: Record, flags: Flags): (r: Record)
    requires CanRedact(data, flags)
    ensures r.Keys == data.Keys
    ensures forall k :: k in data && !IsFlagged(flags, k) ==> r[k] == data[k]
    ensures forall k :: k in data && FieldOf(k).None? ==> r[k] == data[k]
    ensures forall k :: k in data && IsFlagged(flags, k) ==> r[k] == MaskFor(FieldOf(k).value, data[k])
  {
    map k | k in data :: RedactedValue(data, flags, k)
  }

  /** `redact_record`: copy the record, then overwrite every flagged
      recognised key with its field's mask, visiting the keys one at a time
      (each key's new value depends on that key alone, so the visiting order
      does not matter). */
  method RedactRecord(data: Record, flags: Flags) returns (redacted: Record)
    requires CanRedact(data, flags)
    ensures redacted == Redacted(data, flags)
  {
    redacted := data;
    var todo := data.Keys;
    while todo != {}
      invariant todo <= data.Keys
      invariant redacted.Keys == data.Keys
      invariant forall k :: k in data ==> redacted[k] == if k in todo then data[k] else RedactedValue(data, flags, k)
      decreases todo
    {
      var key :| key in todo;
      var val := data[key];
      if IsFlagged(flags, key) {
        redacted := redacted[key := MaskFor(FieldOf(key).value, val)];
      }
      todo := todo - {key};
    }
  }

  /** One row: classify, aggregate, redact. */
  method ScanRecord(data: Record) returns (redacted: Record, isPii: bool)
    requires CanRedact(data, Classify(data))
    ensures isPii == IsPii(Classify(data))
    ensures redacted == Redacted(data, Classify(data))
  {
    var flags := DetectPii(data);
    isPii := IsPii(flags);
    redacted := RedactRecord(data, flags);
  }

  // ------------------------------------------------------------ properties

  /** A field whose key is absent from the record is never flagged. */
  lemma AbsentNeverFlagged(data: Record, f: Field)
    requires Key(f) !in data
    ensures !Get(Classify(data), f)
  {
    if Get(TestsOf(data), f) {
      TestNeedsKey(data, f);
    }
  }

  /** The empty record: every flag is false and the record is not PII. */
  lemma EmptyRecord()
    ensures forall f :: !Get(Classify(map[]), f)
    ensures !IsPii(Classify(map[]))
  {
    forall f ensures !Get(Classify(map[]), f) {
      AbsentNeverFlagged(map[], f);
    }
  }

  /** A standalone flag depends on its own key alone: two records that agree
      at that key get the same flag, whatever else they hold. */
  lemma StandaloneIndependent(d1: Record, d2: Record, f: Field)
    requires IsStandalone(f)
    requires Key(f) in d1 <==> Key(f) in d2
    requires Key(f) in d1 ==> d1[Key(f)] == d2[Key(f)]
    ensures Get(Classify(d1), f) == Get(Classify(d2), f)
  {
  }

  /** With the test of combinatorial field f passed, more than one
      combinatorial test passed exactly when the test of another
      combinatorial field passed. */
  lemma OtherPassed(t: Tests, f: Field)
    requires !IsStandalone(f) && Get(t, f)
    ensures CombinatorialCount(t) > 1 <==> exists g :: g != f && !IsStandalone(g) && Get(t, g)
  {
    if CombinatorialCount(t) > 1 {
      var g :=
        if f != Name && Get(t, Name) then Name
        else if f != Email && Get(t, Email) then Email
        else if f != Address && Get(t, Address) then Address
        else if f != IpAddress && Get(t, IpAddress) then IpAddress
        else DeviceId;
      assert g != f && !IsStandalone(g) && Get(t, g);
    }
  }

  /** A combinatorial field other than the name is flagged exactly when it is
      eligible and some other combinatorial field is eligible too. */
  lemma ThresholdRule(data: Record, f: Field)
    requires f == Email || f == Address || f == IpAddress || f == DeviceId
    ensures Get(Classify(data), f) <==> Eligible(data, f) && exists g :: g != f && Eligible(data, g)
  {
    var t := TestsOf(data);
    if Eligible(data, f) {
      OtherPassed(t, f);
      if CombinatorialCount(t) > 1 {
        var g :| g != f && !IsStandalone(g) && Get(t, g);
        assert Eligible(data, g);
      }
    }
  }

  /** With at most one eligible combinatorial field, none of email, address,
      ip_address and device_id is flagged. */
  lemma SingleEligibleNotFlagged(data: Record, f: Field)
    requires f == Email || f == Address || f == IpAddress || f == DeviceId
    requires forall g, h :: Eligible(data, g) && Eligible(data, h) ==> g == h
    ensures !Get(Classify(data), f)
  {
    ThresholdRule(data, f);
  }

  /** The name flag is set exactly when the name is present and non-empty,
      whatever the other fields hold. */
  lemma NameFlag(data: Record)
    ensures Get(Classify(data), Name) <==> "name" in data && data["name"] != ""
  {
  }

  /** A record holding only a non-empty name is flagged as PII, although no
      second combinatorial field is present. */
  lemma NameAloneIsPii(v: string)
    requires v != ""
    ensures Get(Classify(map["name" := v]), Name)
    ensures !Get(Classify(map["name" := v]), Address)
    ensures IsPii(Classify(map["name" := v]))
  {
    NameFlag(map["name" := v]);
    AbsentNeverFlagged(map["name" := v], Address);
  }

  /** More than one combinatorial test passed exactly when two distinct
      combinatorial fields are eligible. */
  lemma TwoEligible(data: Record)
    ensures CombinatorialCount(TestsOf(data)) > 1 <==>
      exists g, h :: g != h && Eligible(data, g) && Eligible(data, h)
  {
    var t := TestsOf(data);
    if CombinatorialCount(t) > 1 {
      var g :=
        if Get(t, Name) then Name else if Get(t, Email) then Email else if Get(t, Address) then Address
        else if Get(t, IpAddress) then IpAddress else DeviceId;
      OtherPassed(t, g);
      var h :| h != g && !IsStandalone(h) && Get(t, h);
      assert Eligible(data, g) && Eligible(data, h);
    }
    if exists g, h :: g != h && Eligible(data, g) && Eligible(data, h) {
      var g, h :| g != h && Eligible(data, g) && Eligible(data, h);
      OtherPassed(t, g);
    }
  }

  /** The aggregate flag: a record is PII exactly when a standalone pattern
      matches, the name is present and non-empty, or two distinct
      combinatorial fields are eligible. */
  lemma IsPiiRule(data: Record)
    ensures IsPii(Classify(data)) <==>
      (exists f :: StandaloneHit(data, f)) || Eligible(data, Name)
      || exists g, h :: g != h && Eligible(data, g) && Eligible(data, h)
  {
    var t := TestsOf(data);
    var flags := Classify(data);
    TwoEligible(data);
    if exists g, h :: g != h && Eligible(data, g) && Eligible(data, h) {
      var g, h :| g != h && Eligible(data, g) && Eligible(data, h);
      assert Get(flags, g);
    }
    if exists f :: StandaloneHit(data, f) {
      var f :| StandaloneHit(data, f);
      assert Get(flags, f);
    }
    if Eligible(data, Name) {
      assert Get(flags, Name);
    }
    if IsPii(flags) {
      var f :| Get(flags, f);
      if IsStandalone(f) {
        assert StandaloneHit(data, f);
      } else if f == Name {
        assert Eligible(data, Name);
      } else {
        assert CombinatorialCount(t) > 1;
      }
    }
  }

  /** Only the phone: the phone flag alone is set. */
  lemma PhoneOnly()
    ensures forall f :: Get(Classify(map["phone" := "9876543210"]), f) == (f == Phone)
  {
    PhoneExample();
    var data := map["phone" := "9876543210"];
    forall f ensures Get(Classify(data), f) == (f == Phone) {
      if f != Phone {
        AbsentNeverFlagged(data, f);
      }
    }
  }

  /** Redacting under flags that are all false gives back the record. */
  lemma RedactNothing(data: Record, flags: Flags)
    requires forall f :: !Get(flags, f)
    ensures CanRedact(data, flags)
    ensures Redacted(data, flags) == data
  {
  }

  /** A flagged address is replaced by the redaction marker. */
  lemma FlaggedAddressRedacted(data: Record, flags: Flags)
    requires "address" in data && Get(flags, Address)
    requires CanRedact(data, flags)
    ensures Redacted(data, flags)["address"] == RedactedMarker
  {
    assert IsFlagged(flags, "address");
  }

  /** A flagged combinatorial field is eligible. */
  lemma EligibleFlagged(data: Record, f: Field)
    requires !IsStandalone(f) && Get(Classify(data), f)
    ensures Eligible(data, f)
  {
  }

  /** The classifier's flags can be redacted whenever the upi_id and email
      values hold at most one '@': a flagged passport is non-empty because its
      pattern needs eight characters, and a flagged upi_id or email holds an
      '@' because its pattern does. */
  lemma ClassifyCanRedact(data: Record)
    requires "upi_id" in data ==> Count(data["upi_id"], '@') <= 1
    requires "email" in data ==> Count(data["email"], '@') <= 1
    ensures CanRedact(data, Classify(data))
  {
    var t := TestsOf(data);
    if Get(t, Passport) {
      PassportMatchLength(data["passport"]);
    }
    if Get(t, UpiId) {
      UpiMatchHasAt(data["upi_id"]);
    }
    if Get(t, Email) {
      EmailMatchHasAt(data["email"]);
    }
    var flags := Classify(data);
    forall k | k in data && IsFlagged(flags, k) ensures Maskable(FieldOf(k).value, data[k]) {
      assert Get(t, FieldOf(k).value);
    }
  }

  /** A upi_id the pattern accepts but whose mask raises: "ab@cd@ef" matches
      `[\w.-]{2,}@[a-zA-Z]{2,}` on its first five characters, and splitting
      it at '@' gives three parts. */
  lemma UpiMatchWithTwoAts()
    ensures UpiMatch("ab@cd@ef") && !HasSingleAt("ab@cd@ef")
  {
    var v := "ab@cd@ef";
    assert UpiAt(v, 0, 2, 5);
    CountTwo(v, '@', 2, 5);
  }

  /** So `redact_record` raises on a record holding only a upi_id the
      pattern accepts but that holds more than one '@' (such as "ab@cd@ef",
      by UpiMatchWithTwoAts): the classifier flags it, and its mask cannot be
      computed. */
  lemma UpiRecordNotRedactable(v: string)
    requires UpiMatch(v) && !HasSingleAt(v)
    ensures !CanRedact(map["upi_id" := v], Classify(map["upi_id" := v]))
  {
    var data := map["upi_id" := v];
    assert IsFlagged(Classify(data), "upi_id");
  }

  /** A non-empty name with a matching email: both combinatorial fields are
      eligible, so both are flagged. */
  lemma NameAndEmailFlagged(n: string, e: string)
    requires n != "" && EmailMatch(e)
    ensures Get(Classify(map["name" := n, "email" := e]), Name)
    ensures Get(Classify(map["name" := n, "email" := e]), Email)
  {
    var data := map["name" := n, "email" := e];
    assert Get(TestsOf(data), Name) && Get(TestsOf(data), Email);
  }

  /** Redacting a record of a non-empty name and a matching email with a
      single '@': the name is masked token by token, and the email keeps two
      characters of its local part and all of its domain (for "Jane Doe" and
      "jane@x.com": "JXXX DXXX" and "jaXXX@x.com", by MaskNameExample and
      MaskEmailExample). */
  lemma NameAndEmailRedacted(n: string, local: string, domain: string)
    requires n != "" && '@' !in local && '@' !in domain
    requires EmailMatch(local + "@" + domain)
    ensures CanRedact(map["name" := n, "email" := local + "@" + domain],
                      Classify(map["name" := n, "email" := local + "@" + domain]))
    ensures Redacted(map["name" := n, "email" := local + "@" + domain],
                     Classify(map["name" := n, "email" := local + "@" + domain]))
            == map["name" := MaskName(n), "email" := Take(local, 2) + "XXX@" + domain]
  {
    var e := local + "@" + domain;
    NameAndEmailFlagged(n, e);
    MaskEmailParts(local, domain);
    var flags := Classify(map["name" := n, "email" := e]);
    assert IsFlagged(flags, "name") && IsFlagged(flags, "email");
    RedactNameEmail(n, e, flags);
  }

  /** With the name and email flags set, a record of those two keys is
      redacted to their two masks. */
  lemma RedactNameEmail(n: string, e: string, flags: Flags)
    requires IsFlagged(flags, "name") && IsFlagged(flags, "email") && HasSingleAt(e)
    ensures CanRedact(map["name" := n, "email" := e], flags)
    ensures Redacted(map["name" := n, "email" := e], flags) == map["name" := MaskName(n), "email" := MaskEmail(e)]
  {
    var data := map["name" := n, "email" := e];
    assert FieldOf("name") == Some(Name) && FieldOf("email") == Some(Email);
    forall k | k in data && IsFlagged(flags, k) ensures Maskable(FieldOf(k).value, data[k]) {
      if k == "email" {
        assert data[k] == e;
      }
    }
    var r := Redacted(data, flags);
    assert r["name"] == MaskName(n);
    assert r["email"] == MaskEmail(e);
  }

  /** The phone alone: its flag is the only one set, and redaction keeps the
      first two and last two digits. */
  lemma PhoneOnlyRedacted()
    ensures CanRedact(map["phone" := "9876543210"], Classify(map["phone" := "9876543210"]))
    ensures Redacted(map["phone" := "9876543210"], Classify(map["phone" := "9876543210"]))
            == map["phone" := "98XXXXXX10"]
  {
    PhoneOnly();
    MaskPhoneExample();
    var data := map["phone" := "9876543210"];
    assert IsFlagged(Classify(data), "phone");
    assert Redacted(data, Classify(data)).Keys == {"phone"};
  }
}
