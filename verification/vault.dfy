/** Addressing a secret in Vault: paths split into mount and rest, versions printed by the callers and parsed again. */
module VaultAddress {
  import opened Wrappers
  import opened Text

  /** Python's `split("/")`. */
  function Split(path: string): (parts: seq<string>)
    ensures parts != []
  {
    if path == "" then [""]
    else
      var rest := Split(path[1..]);
      if path[0] == '/' then [""] + rest else [[path[0]] + rest[0]] + rest[1..]
  }

  /** Python's `"/".join(parts)`. */
  function Join(parts: seq<string>): string {
    if parts == [] then "" else if |parts| == 1 then parts[0] else parts[0] + "/" + Join(parts[1..])
  }

  function SplitSecretPath(path: string): (string, string) {
    var parts := Split(path);
    (parts[0], Join(parts[1..]))
  }

  lemma {:induction false} FirstPart(path: string)
    ensures '/' !in Split(path)[0]
    ensures |Split(path)| == 1 <==> '/' !in path
  {
    if path != "" {
      FirstPart(path[1..]);
      assert path == [path[0]] + path[1..];
    }
  }

  lemma JoinFirst(first: string, rest: seq<string>)
    requires rest != []
    ensures Join([first] + rest) == first + "/" + Join(rest)
  {
    assert ([first] + rest)[1..] == rest;
  }

  lemma {:induction false} JoinSplit(path: string)
    ensures Join(Split(path)) == path
  {
    if path != "" {
      JoinSplit(path[1..]);
      var rest := Split(path[1..]);
      assert path == [path[0]] + path[1..];
      if path[0] == '/' {
        JoinFirst("", rest);
      } else if |rest| > 1 {
        JoinFirst(rest[0], rest[1..]);
        JoinFirst([path[0]] + rest[0], rest[1..]);
        assert rest == [rest[0]] + rest[1..];
      }
    }
  }

  /** Splitting loses nothing: the mount has no slash, and mount, slash and rest give back every path with a slash. */
  lemma SplitThenJoin(path: string)
    ensures var (mount, rest) := SplitSecretPath(path);
      && '/' !in mount
      && path == (if '/' in path then mount + "/" + rest else mount)
      && ('/' !in path ==> rest == "")
  {
    FirstPart(path);
    JoinSplit(path);
    var parts := Split(path);
    assert parts == [parts[0]] + parts[1..];
    if |parts| > 1 {
      JoinFirst(parts[0], parts[1..]);
    }
  }

  lemma {:induction false} SplitMount(mount: string, rest: string)
    requires '/' !in mount
    ensures Split(mount + "/" + rest) == [mount] + Split(rest)
  {
    var path := mount + "/" + rest;
    if mount == "" {
      assert path == "/" + rest && path[1..] == rest;
    } else {
      assert path[1..] == mount[1..] + "/" + rest;
      SplitMount(mount[1..], rest);
      assert mount == [mount[0]] + mount[1..];
    }
  }

  /** ...and every mount without a slash, with every rest, is found again. */
  lemma JoinThenSplit(mount: string, rest: string)
    requires '/' !in mount
    ensures SplitSecretPath(mount + "/" + rest) == (mount, rest)
  {
    SplitMount(mount, rest);
    JoinSplit(rest);
    assert ([mount] + Split(rest))[1..] == Split(rest);
  }

  /** Two paths address the same secret only if they are equal, but for a slash at the end of a bare mount. */
  lemma SameAddress(p: string, q: string)
    ensures SplitSecretPath(p) == SplitSecretPath(q)
       <==> p == q || ('/' !in p && q == p + "/") || ('/' !in q && p == q + "/")
  {
    SplitThenJoin(p);
    SplitThenJoin(q);
    if '/' !in p && q == p + "/" {
      JoinThenSplit(p, "");
      assert p + "/" + "" == q;
    }
    if '/' !in q && p == q + "/" {
      JoinThenSplit(q, "");
      assert q + "/" + "" == p;
    }
    if SplitSecretPath(p) == SplitSecretPath(q) && p != q {
      var m := SplitSecretPath(p).0;
      assert m + "/" + "" == m + "/";
    }
  }

  // Versions.

  function Digit(d: int): char
    requires 0 <= d < 10
  {
    ('0' as int + d) as char
  }

  function PrintNat(n: nat): string {
    if n < 10 then [Digit(n)] else PrintNat(n / 10) + [Digit(n % 10)]
  }

  /** Python's `str` of an optional number. */
  function Print(version: Option<int>): string {
    match version
    case None => "None"
    case Some(n) => if n < 0 then "-" + PrintNat(-n) else PrintNat(n)
  }

  /** The digits before the last one, without the underscore that may stand between. */
  function Chopped(before: string): string {
    if before != "" && before[|before| - 1] == '_' then before[..|before| - 1] else before
  }

  /** Decimal digits, with single underscores allowed between them. */
  function ParseDigits(s: string): Option<nat>
    decreases |s|
  {
    if s == "" || !('0' <= s[|s| - 1] <= '9') then None
    else
      var d: nat := s[|s| - 1] as int - '0' as int;
      var before := s[..|s| - 1];
      if before == "" then Some(d)
      else
        match ParseDigits(Chopped(before))
        case None => None
        case Some(n) => Some(10 * n + d)
  }

  function StripLeft(s: string): string {
    if s != "" && Space(s[0]) then StripLeft(s[1..]) else s
  }

  function StripRight(s: string): string {
    if s != "" && Space(s[|s| - 1]) then StripRight(s[..|s| - 1]) else s
  }

  /** Python's `int` of a string; None stands for a ValueError. */
  function ParseInt(s: string): Option<int> {
    var t := StripRight(StripLeft(s));
    if t != "" && (t[0] == '-' || t[0] == '+') then
      match ParseDigits(t[1..])
      case None => None
      case Some(n) =>
        var value: int := n;
        Some(if t[0] == '-' then -value else value)
    else
      match ParseDigits(t)
      case None => None
      case Some(n) => Some(n)
  }

  /** What is asked of the secrets engine, or the error raised before. */
  datatype ReadRequest = KvV1 | KvV2(version: Option<int>) | SecretVersionIsNoneError | ValueError

  const SECRET_VERSION_LATEST := "LATEST"

  function RequestFor(kvVersion: string, version: Option<string>): ReadRequest {
    if kvVersion != "2" then KvV1
    else if version == None then SecretVersionIsNoneError
    else if version.value == SECRET_VERSION_LATEST then KvV2(None)
    else
      match ParseInt(version.value)
      case None => ValueError
      case Some(n) => KvV2(Some(n))
  }

  lemma {:induction false} PrintNatParses(n: nat)
    ensures ParseDigits(PrintNat(n)) == Some(n)
    ensures PrintNat(n) != "" && forall c | c in PrintNat(n) :: '0' <= c <= '9'
  {
    if n >= 10 {
      PrintNatParses(n / 10);
      var s := PrintNat(n);
      assert s[..|s| - 1] == PrintNat(n / 10);
      var before := PrintNat(n / 10);
      assert before[|before| - 1] in before;
    }
  }

  lemma NothingToStrip(s: string)
    requires s != "" && !Space(s[0]) && !Space(s[|s| - 1])
    ensures StripRight(StripLeft(s)) == s
  {
  }

  lemma PlainDigitsParse(s: string, n: int)
    requires 0 <= n
    requires s != "" && ParseDigits(s) == Some(n) && forall c | c in s :: '0' <= c <= '9'
    ensures ParseInt(s) == Some(n) && s != SECRET_VERSION_LATEST
    ensures ParseInt("-" + s) == Some(-n) && "-" + s != SECRET_VERSION_LATEST
  {
    assert s[0] in s && s[|s| - 1] in s;
    NothingToStrip(s);
    var m := "-" + s;
    assert m[|m| - 1] == s[|s| - 1] && m[0] == '-' && m[1..] == s;
    NothingToStrip(m);
  }

  lemma PrintedNumberParses(n: int)
    ensures ParseInt(Print(Some(n))) == Some(n)
    ensures Print(Some(n)) != SECRET_VERSION_LATEST
  {
    var a: nat := if n < 0 then -n else n;
    PrintNatParses(a);
    PlainDigitsParse(PrintNat(a), a);
  }

  /** Without a version 2 engine no version is looked at; with one, a missing version is an error, "LATEST" asks for the
      latest, and any other text for the number it reads as, or it is a ValueError. */
  lemma RequestsByMount(kvVersion: string, version: Option<string>)
    ensures RequestFor(kvVersion, version) == KvV1 <==> kvVersion != "2"
    ensures RequestFor(kvVersion, version) == SecretVersionIsNoneError <==> kvVersion == "2" && version == None
    ensures RequestFor("2", Some("LATEST")) == KvV2(None)
    ensures version.Some? && version.value != "LATEST" ==>
      RequestFor("2", version) == if ParseInt(version.value) == None then ValueError else KvV2(ParseInt(version.value))
  {
  }

  // What Python reads as a number.

  predicate IsDigit(c: char) {
    '0' <= c <= '9'
  }

  /** Digits with single underscores between them. */
  ghost predicate Numeral(s: string) {
    && s != "" && IsDigit(s[0]) && IsDigit(s[|s| - 1])
    && (forall i | 0 <= i < |s| :: IsDigit(s[i]) || s[i] == '_')
    && (forall i, j | 0 <= i < j == i + 1 < |s| :: IsDigit(s[i]) || IsDigit(s[j]))
  }

  lemma NumeralWithoutLast(s: string)
    requires Numeral(s) && |s| > 1
    ensures Numeral(Chopped(s[..|s| - 1]))
  {
  }

  lemma NumeralWithLast(s: string)
    requires |s| > 1 && IsDigit(s[|s| - 1]) && Numeral(Chopped(s[..|s| - 1]))
    ensures Numeral(s)
  {
    var before := Chopped(s[..|s| - 1]);
    assert forall i | 0 <= i < |before| :: s[i] == before[i];
  }

  /** The decimal number that the digits of s make. */
  function Decimal(s: string): nat {
    if s == "" then 0
    else
      var n, c := Decimal(s[..|s| - 1]), s[|s| - 1];
      if IsDigit(c) then 10 * n + (c as int - '0' as int) else n
  }

  /** Exactly those can be parsed, and underscores do not count. */
  lemma {:induction false} ParsesIffNumeral(s: string)
    ensures ParseDigits(s) == if Numeral(s) then Some(Decimal(s)) else None
    decreases |s|
  {
    if |s| > 1 && IsDigit(s[|s| - 1]) {
      var before := Chopped(s[..|s| - 1]);
      ParsesIffNumeral(before);
      if Numeral(s) {
        NumeralWithoutLast(s);
      }
      if Numeral(before) {
        NumeralWithLast(s);
      }
    }
  }

  lemma {:induction false} SpaceAround(left: string, s: string, right: string)
    requires forall c | c in left + right :: Space(c)
    requires s != "" && !Space(s[0]) && !Space(s[|s| - 1])
    ensures StripRight(StripLeft(left + s + right)) == s
    decreases |left| + |right|
  {
    var t := left + s + right;
    if left != "" {
      assert left[0] in left + right && t[1..] == left[1..] + s + right;
      assert forall c | c in left[1..] + right :: c in left + right;
      SpaceAround(left[1..], s, right);
    } else if right != "" {
      var n := |right| - 1;
      assert right[n] in left + right && t[..|t| - 1] == left + s + right[..n];
      assert forall c | c in left + right[..n] :: c in left + right;
      SpaceAround(left, s, right[..n]);
      assert StripLeft(t) == t && StripLeft(left + s + right[..n]) == left + s + right[..n];
    } else {
      assert t == s;
      NothingToStrip(s);
    }
  }

  lemma SignAndDigits(text: string, sign: string, digits: string)
    requires (sign == "" || sign == "+" || sign == "-") && Numeral(digits) && ParseDigits(digits).Some?
    requires StripRight(StripLeft(text)) == sign + digits
    ensures var n: int := ParseDigits(digits).value;
      ParseInt(text) == Some(if sign == "-" then -n else n)
  {
    if sign == "" {
      assert sign + digits == digits;
    } else {
      assert (sign + digits)[1..] == digits;
    }
  }

  lemma NothingAround(sign: string, digits: string)
    requires (sign == "" || sign == "+" || sign == "-") && Numeral(digits)
    ensures var t := sign + digits; t != "" && !Space(t[0]) && !Space(t[|t| - 1])
  {
    var t := sign + digits;
    assert t[|t| - 1] == digits[|digits| - 1];
    assert t[0] == if sign == "" then digits[0] else sign[0];
  }

  /** White space around a number and a sign before it are understood. */
  lemma SpacesAndSigns(left: string, sign: string, digits: string, right: string)
    requires (sign == "" || sign == "+" || sign == "-") && Numeral(digits) && forall c | c in left + right :: Space(c)
    ensures var n: int := Decimal(digits);
      ParseInt(left + (sign + digits) + right) == Some(if sign == "-" then -n else n)
  {
    ParsesIffNumeral(digits);
    NothingAround(sign, digits);
    SpaceAround(left, sign + digits, right);
    SignAndDigits(left + (sign + digits) + right, sign, digits);
  }

  /** The callers print whatever version the secret has. On a KV v2 mount the version asked for is that one exactly
      when there is one; the latest version is never asked for, and a secret without a version always ends in a
      ValueError, never in the error meant for it. */
  lemma CallerVersionArrives(version: Option<int>)
    ensures version == None ==> Print(version) == "None"
    ensures var r := RequestFor("2", Some(Print(version)));
      && (r == KvV2(version) <==> version.Some?)
      && (r == ValueError <==> version == None)
      && r != KvV2(None) && r != SecretVersionIsNoneError
  {
    if version.Some? {
      PrintedNumberParses(version.value);
    } else {
      NothingToStrip("None");
      assert ParseDigits("None") == None;
    }
  }
}
