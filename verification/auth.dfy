/**
 * Access control of the settings pages and the API: which paths need
 * credentials, the HTTP Basic check of section 2 of RFC 7617, and the
 * stored password hash `pbkdf2_sha256$<iterations>$<salt>$<hex digest>`.
 *
 * Base64 decoding followed by UTF-8 decoding is the parameter `decode`
 * (None where either raises). `hashlib.pbkdf2_hmac("sha256", ...).hex()`
 * is the parameter `pbkdf2`; the model applies it only to the iteration
 * counts the library accepts (1 up to 2^31 - 1) and says that it raises
 * for the others. `os.urandom` salts are left out: the salt is an argument.
 */
module Auth {
  import opened PyValues
  import Settings

  // ---------------------------------------------------------------- _requires_auth

  const PublicPages: set<string> := {"/", "/index.html", "/app.js", "/styles.css"}
  const SettingsPages: set<string> := {"/settings", "/settings/", "/settings.html", "/settings.js", "/settings.css"}
  const WeatherPages: set<string> := {"/weather", "/weather/"}

  /** `_requires_auth(path)`: the checks in the order the handler makes them. */
  function RequiresAuth(path: string): bool {
    if StartsWith(path, "/api/status") || StartsWith(path, "/api/weather/settings") then false
    else if StartsWith(path, "/weather/") || path in WeatherPages then false
    else if StartsWith(path, "/data/icons/") then false
    else if path in PublicPages then false
    else if path in SettingsPages then true
    else StartsWith(path, "/api/")
  }

  /**
   * Credentials guard exactly the settings pages and the API, except the
   * status and weather-settings endpoints.
   */
  lemma RequiresAuthSpec(path: string)
    ensures RequiresAuth(path) <==>
      path in SettingsPages
      || (StartsWith(path, "/api/") && !StartsWith(path, "/api/status") && !StartsWith(path, "/api/weather/settings"))
  {
    if StartsWith(path, "/api/status") {
      PrefixOfPrefix(path, "/api/status", "/api/");
    }
    if StartsWith(path, "/api/weather/settings") {
      PrefixOfPrefix(path, "/api/weather/settings", "/api/");
    }
    PrefixesClash(path, "/weather/", "/api/", 1);
    PrefixesClash(path, "/data/icons/", "/api/", 1);
    if path in SettingsPages {
      assert StartsWith(path, "/settings");
      PrefixesClash(path, "/settings", "/api/", 1);
      PrefixesClash(path, "/settings", "/weather/", 1);
      PrefixesClash(path, "/settings", "/data/icons/", 1);
    }
    if (path in PublicPages || path in WeatherPages) && |path| > 1 {
      PrefixesClash(path, path, "/api/", if path == "/app.js" then 3 else 1);
    }
  }

  lemma PrefixOfPrefix(path: string, p: string, q: string)
    requires StartsWith(path, p) && StartsWith(p, q)
    ensures StartsWith(path, q)
  {
    assert path[..|q|] == p[..|q|];
  }

  /** No path starts with two prefixes that differ at position `i`. */
  lemma PrefixesClash(path: string, p: string, q: string, i: nat)
    requires i < |p| && i < |q| && p[i] != q[i]
    ensures !(StartsWith(path, p) && StartsWith(path, q))
  {
  }

  /** The overlay, its icons and the weather pages are always served without credentials. */
  lemma PublicPathsOpen(path: string)
    requires path in PublicPages || path in WeatherPages || StartsWith(path, "/weather/") || StartsWith(path, "/data/icons/")
    ensures !RequiresAuth(path)
  {
    RequiresAuthSpec(path);
    PrefixesClash(path, "/weather/", "/api/", 1);
    PrefixesClash(path, "/data/icons/", "/api/", 1);
  }

  // ---------------------------------------------------------------- _auth_settings

  datatype AuthSettings = AuthSettings(enabled: bool, user: string, passwordHash: string)

  const DefaultUser: string := "admin"

  /** `str(user or "admin").strip() or "admin"` on the text of the configured user. */
  function AuthUser(named: string): (user: string)
    ensures user != "" && Strip(user) == user
  {
    var stripped := Strip(named);
    if stripped == "" then
      NoSpaceUnstripped(DefaultUser);
      DefaultUser
    else
      NoSpaceUnstripped(stripped);
      stripped
  }

  /** `_auth_settings()` on the stored configuration: enabled only with a stored hash. */
  function AuthSettingsOf(config: map<string, Value>, repr: FloatRepr): (r: AuthSettings)
    ensures r.user != ""
    ensures r.enabled <==> Truthy(Settings.Lookup(config, "settings_auth_enabled")) && r.passwordHash != ""
  {
    var userValue := Settings.Lookup(config, "settings_auth_user");
    var user := AuthUser(if Truthy(userValue) then PyStr(userValue, repr) else DefaultUser);
    var hash := Strip(TextOrEmpty(Settings.Lookup(config, "settings_auth_password_hash"), repr));
    AuthSettings(Truthy(Settings.Lookup(config, "settings_auth_enabled")) && hash != "", user, hash)
  }

  // ---------------------------------------------------------------- splitting and comparing

  /** The index of the first `c` in `s`, `|s|` when there is none. */
  function IndexOf(s: string, c: char): (r: nat)
    ensures r <= |s|
    ensures forall i :: 0 <= i < r ==> s[i] != c
    ensures r < |s| ==> s[r] == c
  {
    if s == [] || s[0] == c then 0 else 1 + IndexOf(s[1..], c)
  }

  /** `s.split(c, n)`: at most `n` cuts, at the first occurrences of `c`. */
  function SplitMax(s: string, c: char, n: nat): (parts: seq<string>)
    ensures 1 <= |parts| <= n + 1
    decreases n
  {
    var k := IndexOf(s, c);
    if n == 0 || k == |s| then [s] else [s[..k]] + SplitMax(s[k + 1..], c, n - 1)
  }

  /** Splitting `x c rest` where `x` holds no `c` cuts `x` off first. */
  lemma SplitMaxCons(x: string, c: char, rest: string, n: nat)
    requires c !in x
    ensures SplitMax(x + [c] + rest, c, n + 1) == [x] + SplitMax(rest, c, n)
  {
    var s := x + [c] + rest;
    assert s[..|x|] == x;
    FirstAt(s, c, |x|);
    assert s[|x| + 1..] == rest;
  }

  /** `c` first occurs at `k` when it is there and nowhere before. */
  lemma FirstAt(s: string, c: char, k: nat)
    requires k < |s| && s[k] == c && c !in s[..k]
    ensures IndexOf(s, c) == k
  {
    var r := IndexOf(s, c);
    assert forall i :: 0 <= i < k ==> s[..k][i] == s[i];
  }

  /** One cut of `x c rest`, where `x` holds no `c`, gives `x` and `rest`. */
  lemma SplitPair(x: string, c: char, rest: string)
    requires c !in x
    ensures c in x + [c] + rest && SplitMax(x + [c] + rest, c, 1) == [x, rest]
  {
    assert (x + [c] + rest)[|x|] == c;
    SplitMaxCons(x, c, rest, 0);
    assert SplitMax(rest, c, 0) == [rest];
  }

  /** A text without `c` is not cut. */
  lemma SplitMaxNone(s: string, c: char, n: nat)
    requires c !in s
    ensures SplitMax(s, c, n) == [s]
  {
  }

  /** The parts before the last are cut at the first `c`s and hold none. */
  lemma {:induction false} SplitMaxParts(s: string, c: char, n: nat, i: nat)
    requires i < |SplitMax(s, c, n)| - 1
    ensures c !in SplitMax(s, c, n)[i]
    decreases n
  {
    var k := IndexOf(s, c);
    if i > 0 {
      SplitMaxParts(s[k + 1..], c, n - 1, i - 1);
    } else {
      assert forall j :: 0 <= j < k ==> s[..k][j] == s[j];
    }
  }

  predicate Ascii(s: string) {
    forall i :: 0 <= i < |s| ==> s[i] as int < 128
  }

  /** What a call returns, or that it raises. */
  datatype Outcome = Returns(value: bool) | Raises

  /** `hmac.compare_digest(a, b)` on two str values: TypeError unless both are ASCII. */
  function CompareDigest(a: string, b: string): (r: Outcome)
    ensures r.Returns? <==> Ascii(a) && Ascii(b)
    ensures r.Returns? ==> (r.value <==> a == b)
  {
    if Ascii(a) && Ascii(b) then Returns(a == b) else Raises
  }

  // ---------------------------------------------------------------- password hashes

  const Scheme: string := "pbkdf2_sha256"
  const DefaultIterations: int := 210000
  const MaxIterations: int := 0x7fff_ffff

  /** `hashlib.pbkdf2_hmac("sha256", password, salt, iterations).hex()` */
  type Pbkdf2 = (string, string, int) -> string

  /** `pbkdf2_hmac` raises ValueError below one iteration and OverflowError above 2^31 - 1. */
  predicate IterationsAccepted(iterations: int) {
    1 <= iterations <= MaxIterations
  }

  /** The stored form `pbkdf2_sha256$<iterations>$<salt>$<digest>`. */
  function Encoded(iterationsText: string, salt: string, digest: string): string {
    Scheme + ['$'] + (iterationsText + ['$'] + (salt + ['$'] + digest))
  }

  /** `hash_password(password, salt, iterations)` with the salt given; None where `pbkdf2_hmac` raises. */
  function HashPassword(password: string, salt: string, iterations: int, pbkdf2: Pbkdf2): (r: Option<string>)
    ensures r.Some? <==> IterationsAccepted(iterations)
  {
    if !IterationsAccepted(iterations) then None
    else Some(Encoded(IntToString(iterations), salt, pbkdf2(password, salt, iterations)))
  }

  /** The salt and iteration count of a stored hash, when it has the scheme's four fields. */
  function HashFields(encoded: string): (r: Option<(int, string)>)
  {
    var parts := SplitMax(encoded, '$', 3);
    if |parts| != 4 || parts[0] != Scheme then None
    else
      match ParseInt(parts[1])
      case None => None
      case Some(iterations) => Some((iterations, parts[2]))
  }

  /** `verify_password(password, encoded_hash)` */
  function VerifyPassword(password: string, encoded: string, pbkdf2: Pbkdf2): (r: Outcome)
    ensures encoded == "" || HashFields(encoded).None? ==> r == Returns(false)
  {
    if encoded == "" then Returns(false)
    else
      match HashFields(encoded)
      case None => Returns(false)
      case Some((iterations, salt)) =>
        match HashPassword(password, salt, iterations, pbkdf2)
        case None => Raises
        case Some(computed) => CompareDigest(computed, encoded)
  }

  /**
   * A hash is accepted only when hashing this password with the salt and
   * count it names gives that very hash; it raises only for a count
   * `pbkdf2_hmac` refuses.
   */
  lemma VerifySound(password: string, encoded: string, pbkdf2: Pbkdf2)
    ensures var r := VerifyPassword(password, encoded, pbkdf2);
      var fields := HashFields(encoded);
      && (r == Returns(true) ==>
            fields.Some? && HashPassword(password, fields.value.1, fields.value.0, pbkdf2) == Some(encoded))
      && (r.Raises? ==>
            fields.Some?
            && (!IterationsAccepted(fields.value.0) || !Ascii(encoded)
                || !Ascii(HashPassword(password, fields.value.1, fields.value.0, pbkdf2).value)))
  {
  }

  lemma DigitsAscii(s: string)
    requires forall i :: 0 <= i < |s| ==> IsDigit(s[i])
    ensures Ascii(s) && '$' !in s
  {
  }

  lemma SchemeText()
    ensures Ascii(Scheme) && '$' !in Scheme
  {
  }

  /** The four fields of a stored hash come back from its text when the middle two hold no '$'. */
  lemma SplitEncoded(iterationsText: string, salt: string, digest: string)
    requires '$' !in iterationsText && '$' !in salt
    ensures SplitMax(Encoded(iterationsText, salt, digest), '$', 3) == [Scheme, iterationsText, salt, digest]
  {
    SchemeText();
    SplitFour(Scheme, iterationsText, salt, digest);
  }

  lemma SplitFour(a: string, b: string, c: string, d: string)
    requires '$' !in a && '$' !in b && '$' !in c
    ensures SplitMax(a + ['$'] + (b + ['$'] + (c + ['$'] + d)), '$', 3) == [a, b, c, d]
  {
    SplitThree(b, c, d);
    SplitMaxCons(a, '$', b + ['$'] + (c + ['$'] + d), 2);
  }

  lemma SplitThree(b: string, c: string, d: string)
    requires '$' !in b && '$' !in c
    ensures SplitMax(b + ['$'] + (c + ['$'] + d), '$', 2) == [b, c, d]
  {
    SplitPair(c, '$', d);
    SplitMaxCons(b, '$', c + ['$'] + d, 1);
  }

  lemma AsciiEncoded(iterationsText: string, salt: string, digest: string)
    requires Ascii(iterationsText) && Ascii(salt) && Ascii(digest)
    ensures Ascii(Encoded(iterationsText, salt, digest))
  {
    SchemeText();
    var e := Encoded(iterationsText, salt, digest);
    forall i | 0 <= i < |e|
      ensures e[i] as int < 128
    {
      var k := i - |Scheme| - 1;
      var m := k - |iterationsText| - 1;
      if i < |Scheme| {
        assert e[i] == Scheme[i];
      } else if k < 0 || k == |iterationsText| || m == |salt| {
        assert e[i] == '$';
      } else if k < |iterationsText| {
        assert e[i] == iterationsText[k];
      } else if m < |salt| {
        assert e[i] == salt[m];
      } else {
        assert e[i] == digest[m - |salt| - 1];
      }
    }
  }

  /** The fields of what `hash_password` writes are read back as its count and salt. */
  lemma HashFieldsRoundTrip(password: string, salt: string, iterations: int, pbkdf2: Pbkdf2)
    requires IterationsAccepted(iterations) && '$' !in salt
    ensures HashFields(HashPassword(password, salt, iterations, pbkdf2).value) == Some((iterations, salt))
  {
    var digits := IntToString(iterations);
    var digest := pbkdf2(password, salt, iterations);
    assert '$' !in digits by {
      assert digits == NatToString(iterations);
      DigitsAscii(digits);
    }
    assert ParseInt(digits) == Some(iterations) by {
      ParseIntRoundTrip(iterations);
    }
    SplitEncoded(digits, salt, digest);
    FieldsOfParts(Encoded(digits, salt, digest), digits, salt, digest, iterations);
  }

  lemma FieldsOfParts(encoded: string, digits: string, salt: string, digest: string, iterations: int)
    requires SplitMax(encoded, '$', 3) == [Scheme, digits, salt, digest]
    requires ParseInt(digits) == Some(iterations)
    ensures HashFields(encoded) == Some((iterations, salt))
  {
  }

  /**
   * What `hash_password` writes, `verify_password` accepts for the same
   * password: the salt holds no '$' and the text is ASCII, as `os.urandom`
   * hex salts and hex digests are.
   */
  lemma VerifyHashed(password: string, salt: string, iterations: int, pbkdf2: Pbkdf2)
    requires IterationsAccepted(iterations)
    requires '$' !in salt && Ascii(salt) && Ascii(pbkdf2(password, salt, iterations))
    ensures VerifyPassword(password, HashPassword(password, salt, iterations, pbkdf2).value, pbkdf2) == Returns(true)
  {
    var digits := IntToString(iterations);
    assert digits == NatToString(iterations);
    DigitsAscii(digits);
    HashFieldsRoundTrip(password, salt, iterations, pbkdf2);
    AsciiEncoded(digits, salt, pbkdf2(password, salt, iterations));
  }

  // ---------------------------------------------------------------- _is_authorized

  const BasicPrefix: string := "Basic "

  /** `header.split(" ", 1)` of a header that starts with "Basic ". */
  lemma BasicSplit(header: string)
    requires StartsWith(header, BasicPrefix)
    ensures SplitMax(header, ' ', 1) == ["Basic", header[|BasicPrefix|..]]
  {
    assert header == "Basic" + [' '] + header[|BasicPrefix|..];
    SplitMaxCons("Basic", ' ', header[|BasicPrefix|..], 0);
  }

  /**
   * The user-id and password a Basic header carries: the token after
   * "Basic ", decoded, cut at its first colon as section 2 of RFC 7617
   * puts it. None where `_is_authorized` returns False before comparing.
   */
  function BasicCredentials(header: string, decode: string -> Option<string>): (r: Option<(string, string)>)
    ensures r.Some? ==> StartsWith(header, BasicPrefix)
  {
    if !StartsWith(header, BasicPrefix) then None
    else
      BasicSplit(header);
      var token := Strip(SplitMax(header, ' ', 1)[1]);
      match decode(token)
      case None => None
      case Some(decoded) =>
        if ':' !in decoded then None
        else
          var credentials := SplitMax(decoded, ':', 1);
          Some((credentials[0], credentials[1]))
  }

  /** `_is_authorized()` for the request's Authorization header ("" when there is none). */
  function IsAuthorized(settings: AuthSettings, header: string, decode: string -> Option<string>, pbkdf2: Pbkdf2)
    : (r: Outcome)
    ensures !settings.enabled ==> r == Returns(true)
    ensures settings.enabled && BasicCredentials(header, decode).None? ==> r == Returns(false)
  {
    if !settings.enabled then Returns(true)
    else
      match BasicCredentials(header, decode)
      case None => Returns(false)
      case Some((user, password)) =>
        match CompareDigest(user, settings.user)
        case Raises => Raises
        case Returns(same) => if !same then Returns(false) else VerifyPassword(password, settings.passwordHash, pbkdf2)
  }

  /**
   * Under enabled settings a request passes only with a Basic header whose
   * credentials name the configured user and a password the stored hash
   * accepts.
   */
  lemma AuthorizedMeans(settings: AuthSettings, header: string, decode: string -> Option<string>, pbkdf2: Pbkdf2)
    requires settings.enabled && IsAuthorized(settings, header, decode, pbkdf2) == Returns(true)
    ensures StartsWith(header, BasicPrefix)
    ensures var credentials := BasicCredentials(header, decode);
      && credentials.Some?
      && credentials.value.0 == settings.user
      && VerifyPassword(credentials.value.1, settings.passwordHash, pbkdf2) == Returns(true)
  {
  }

  /**
   * Section 2 of RFC 7617: a user-id holds no colon, so `user ":" password`
   * comes back whole, whatever colons the password holds.
   */
  lemma CredentialsRoundTrip(token: string, user: string, password: string, decode: string -> Option<string>)
    requires ':' !in user
    requires Strip(token) == token && decode(token) == Some(user + [':'] + password)
    ensures BasicCredentials(BasicPrefix + token, decode) == Some((user, password))
  {
    var header := BasicPrefix + token;
    assert header[..|BasicPrefix|] == BasicPrefix;
    assert header[|BasicPrefix|..] == token;
    BasicSplit(header);
    assert Strip(SplitMax(header, ' ', 1)[1]) == token;
    SplitPair(user, ':', password);
  }

  /** The configured user's credentials are judged by the stored hash alone. */
  lemma ConfiguredUserVerified(settings: AuthSettings, token: string, password: string,
                               decode: string -> Option<string>, pbkdf2: Pbkdf2)
    requires settings.enabled && ':' !in settings.user && Ascii(settings.user)
    requires Strip(token) == token && decode(token) == Some(settings.user + [':'] + password)
    ensures IsAuthorized(settings, BasicPrefix + token, decode, pbkdf2)
      == VerifyPassword(password, settings.passwordHash, pbkdf2)
  {
    CredentialsRoundTrip(token, settings.user, password, decode);
  }

  /** Another user-id is turned away before any hash is computed. */
  lemma OtherUserRejected(settings: AuthSettings, token: string, user: string, password: string,
                          decode: string -> Option<string>, pbkdf2: Pbkdf2)
    requires settings.enabled && user != settings.user && ':' !in user && Ascii(user) && Ascii(settings.user)
    requires Strip(token) == token && decode(token) == Some(user + [':'] + password)
    ensures IsAuthorized(settings, BasicPrefix + token, decode, pbkdf2) == Returns(false)
  {
    CredentialsRoundTrip(token, user, password, decode);
  }

  /** The right credentials against a hash `hash_password` wrote let the request through. */
  lemma HashedCredentialsAccepted(settings: AuthSettings, token: string, password: string, salt: string,
                                  iterations: int, decode: string -> Option<string>, pbkdf2: Pbkdf2)
    requires settings.enabled && ':' !in settings.user && Ascii(settings.user)
    requires IterationsAccepted(iterations)
    requires '$' !in salt && Ascii(salt) && Ascii(pbkdf2(password, salt, iterations))
    requires settings.passwordHash == HashPassword(password, salt, iterations, pbkdf2).value
    requires Strip(token) == token && decode(token) == Some(settings.user + [':'] + password)
    ensures IsAuthorized(settings, BasicPrefix + token, decode, pbkdf2) == Returns(true)
  {
    ConfiguredUserVerified(settings, token, password, decode, pbkdf2);
    VerifyHashed(password, salt, iterations, pbkdf2);
  }
}
