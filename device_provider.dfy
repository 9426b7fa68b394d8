/**
 * The cookie-based bootstrap of app/components/DeviceProvider.tsx: a short
 * `hh-hhhhhh` id generator, the search for a `device_id=` cookie in
 * `document.cookie`, and the effect that, when there is none, writes the
 * cookie once and fires one `NEW_DEVICE_ID_LOG` request.
 */
module DeviceProvider {
  import opened Js
  import opened Hex

  const CookiePrefix: string := "device_id="
  const Separator: string := "; "
  /** One year in seconds, `60 * 60 * 24 * 365`. */
  const MaxAgeSeconds: nat := 60 * 60 * 24 * 365
  /** `${60 * 60 * 24 * 365}` in the cookie text. */
  const MaxAgeText: string := "31536000"

  /** Appending a digit to a positive number appends its character to the text. */
  lemma NatTextDigit(n: nat, d: nat)
    requires 0 < n && d < 10
    ensures NatText(n * 10 + d) == NatText(n) + [('0' as int + d) as char]
  {
    assert (n * 10 + d) / 10 == n && (n * 10 + d) % 10 == d;
  }

  /** The max-age text is the decimal text of one year in seconds. */
  lemma MaxAgeTextIsOneYear()
    ensures IntText(MaxAgeSeconds) == MaxAgeText
  {
    assert NatText(3) == "3";
    NatTextDigit(3, 1);
    NatTextDigit(31, 5);
    NatTextDigit(315, 3);
    NatTextDigit(3153, 6);
    NatTextDigit(31536, 0);
    NatTextDigit(315360, 0);
    NatTextDigit(3153600, 0);
  }
  const DefaultApiUrl: string := "http://localhost:8080"
  const NewDeviceLogType: string := "NEW_DEVICE_ID_LOG"

  // ---------------------------------------------------------------------
  // The short id

  /** `${hex(2)}-${hex(6)}` given the eight draws, in order. */
  function GenerateDeviceId(rs: seq<Nibble>): (id: string)
    requires |rs| == 8
    ensures IsShortId(id)
  {
    HexString(rs[..2]) + "-" + HexString(rs[2..])
  }

  /** Two lower-case hex digits, a hyphen, six lower-case hex digits. */
  predicate IsShortId(s: string)
  {
    |s| == 9 && s[2] == '-' && forall i :: 0 <= i < 9 && i != 2 ==> IsLowerHex(s[i])
  }

  /** Recovers the eight draws from a short id. */
  function ParseShortId(s: string): (r: Option<seq<Nibble>>)
    ensures r.Some? <==> IsShortId(s)
    ensures r.Some? ==> |r.value| == 8 && GenerateDeviceId(r.value) == s
  {
    if IsShortId(s) then
      assert AllLowerHex(s[..2]) && AllLowerHex(s[3..]);
      Some(ParseHex(s[..2]).value + ParseHex(s[3..]).value)
    else None
  }

  /** Every draw sequence is recovered from its id: distinct draws give distinct ids. */
  lemma ParseGeneratedId(rs: seq<Nibble>)
    requires |rs| == 8
    ensures ParseShortId(GenerateDeviceId(rs)) == Some(rs)
  {
    var id := GenerateDeviceId(rs);
    assert id[..2] == HexString(rs[..2]);
    assert id[3..] == HexString(rs[2..]);
    ParseHexString(rs[..2]);
    ParseHexString(rs[2..]);
    assert rs[..2] + rs[2..] == rs;
  }

  // ---------------------------------------------------------------------
  // document.cookie as text

  predicate StartsWith(s: string, prefix: string)
  {
    |prefix| <= |s| && s[..|prefix|] == prefix
  }

  /** `s.split('; ')`: the separator is matched left to right. */
  function Split(s: string): (parts: seq<string>)
    ensures |parts| >= 1
    decreases |s|
  {
    if |s| >= 2 && s[..2] == Separator then [""] + Split(s[2..])
    else if s == [] then [""]
    else
      var rest := Split(s[1..]);
      [[s[0]] + rest[0]] + rest[1..]
  }

  /** The cookie pairs joined with `'; '`, as the `document.cookie` getter shows them. */
  function Join(parts: seq<string>): string
  {
    if parts == [] then ""
    else if |parts| == 1 then parts[0]
    else parts[0] + Separator + Join(parts[1..])
  }

  /** Splitting and re-joining gives back the text. */
  lemma {:induction false} JoinSplit(s: string)
    ensures Join(Split(s)) == s
    decreases |s|
  {
    if |s| >= 2 && s[..2] == Separator {
      JoinSplit(s[2..]);
      assert s == Separator + s[2..];
    } else if s == [] {
    } else {
      var rest := Split(s[1..]);
      JoinSplit(s[1..]);
      if |rest| == 1 {
        assert s == [s[0]] + s[1..];
      } else {
        assert Join(rest) == rest[0] + Separator + Join(rest[1..]);
        assert s == [s[0]] + s[1..];
      }
    }
  }

  /** A piece free of `;` stays glued to the first part of what follows it. */
  lemma {:induction false} SplitPrefix(p: string, tail: string)
    requires ';' !in p
    ensures Split(p + tail) == [p + Split(tail)[0]] + Split(tail)[1..]
    decreases |p|
  {
    if p != [] {
      var s := p + tail;
      assert s[0] == p[0] && p[0] != ';';
      assert s[1..] == p[1..] + tail;
      assert !(|s| >= 2 && s[..2] == Separator);
      var rest := Split(s[1..]);
      assert Split(s) == [[s[0]] + rest[0]] + rest[1..];
      SplitPrefix(p[1..], tail);
      assert rest == [p[1..] + Split(tail)[0]] + Split(tail)[1..];
      assert [p[0]] + (p[1..] + Split(tail)[0]) == p + Split(tail)[0];
    } else {
      assert p + tail == tail;
      assert p + Split(tail)[0] == Split(tail)[0];
      assert Split(tail) == [Split(tail)[0]] + Split(tail)[1..];
    }
  }

  /** Pairs without `;` are read back exactly from the joined text. */
  lemma {:induction false} SplitJoin(pairs: seq<string>)
    requires |pairs| >= 1
    requires forall p :: p in pairs ==> ';' !in p
    ensures Split(Join(pairs)) == pairs
    decreases |pairs|
  {
    if |pairs| == 1 {
      SplitPrefix(pairs[0], "");
      assert pairs[0] + "" == pairs[0];
    } else {
      var rest := Join(pairs[1..]);
      SplitJoin(pairs[1..]);
      assert (Separator + rest)[..2] == Separator;
      assert (Separator + rest)[2..] == rest;
      SplitPrefix(pairs[0], Separator + rest);
      assert pairs[0] + Separator + rest == pairs[0] + (Separator + rest);
      assert pairs[0] + "" == pairs[0];
      assert [pairs[0]] + pairs[1..] == pairs;
    }
  }

  /** `parts.find((c) => c.startsWith('device_id='))`. */
  function FindDeviceCookie(parts: seq<string>): (r: Option<string>)
    ensures r.Some? ==> r.value in parts && StartsWith(r.value, CookiePrefix)
    ensures r.None? ==> forall p :: p in parts ==> !StartsWith(p, CookiePrefix)
    ensures r.Some? ==>
      exists k :: 0 <= k < |parts| && parts[k] == r.value &&
        (forall j :: 0 <= j < k ==> !StartsWith(parts[j], CookiePrefix))
  {
    if parts == [] then None
    else if StartsWith(parts[0], CookiePrefix) then Some(parts[0])
    else FindDeviceCookie(parts[1..])
  }

  /** `!exists` in the effect: nothing found (a found part is never empty). */
  predicate CookieMissing(cookieText: string)
  {
    var found := FindDeviceCookie(Split(cookieText));
    !(found.Some? && found.value != "")
  }

  /** Some stored pair is named `device_id`, whatever its value (even empty). */
  predicate HasDeviceCookie(jar: seq<string>)
  {
    exists p :: p in jar && StartsWith(p, CookiePrefix)
  }

  /** The text search agrees with the pairs the browser holds. */
  lemma CookieMissingIff(jar: seq<string>)
    requires forall p :: p in jar ==> ';' !in p
    ensures CookieMissing(Join(jar)) <==> !HasDeviceCookie(jar)
  {
    if jar == [] {
      assert Split("") == [""];
    } else {
      SplitJoin(jar);
    }
  }

  // ---------------------------------------------------------------------
  // The effect

  /** The text assigned to `document.cookie`. */
  function CookieAssignment(id: string): string
  {
    CookiePrefix + id + "; path=/; max-age=" + MaxAgeText + "; SameSite=Lax"
  }

  /** The telemetry call: `POST <apiUrl>/api/logs` with the new id as header and body. */
  function NewDeviceLog(apiUrl: string, id: string): Request
  {
    Request(
      "POST",
      apiUrl + "/api/logs",
      map["Content-Type" := JStr("application/json"), "X-Device-ID" := JStr(id)],
      Some(JObj(map[
        "logType" := JStr(NewDeviceLogType),
        "body" := JObj(map["device_id" := JStr(id)])])))
  }

  /** What the effect does to the outside world, in the order it happens. */
  datatype Effect = SetCookie(assignment: string) | Send(request: Request)

  function SentRequests(effects: seq<Effect>): seq<Request>
  {
    if effects == [] then []
    else (if effects[0].Send? then [effects[0].request] else []) + SentRequests(effects[1..])
  }

  /**
   * One browser page load: its cookie store, the build-time API URL and
   * the log of cookie writes and requests made by the effect.
   */
  class Browser {
    /** The stored cookies as `name=value` pairs, in `document.cookie` order. */
    var jar: seq<string>
    var effects: seq<Effect>
    const apiUrlEnv: Option<string>
    /** The id this page load minted, if any. */
    ghost var minted: Option<string>

    ghost predicate Valid()
      reads this
    {
      && (forall p :: p in jar ==> ';' !in p)
      && match minted
         case None => effects == []
         case Some(id) =>
           && effects == [SetCookie(CookieAssignment(id)), Send(NewDeviceLog(ApiUrl(), id))]
           && CookiePrefix + id in jar
           && HasDeviceCookie(jar)
    }

    constructor (cookies: seq<string>, apiUrlEnv: Option<string>)
      requires forall p :: p in cookies ==> ';' !in p
      ensures Valid()
      ensures jar == cookies && effects == [] && this.apiUrlEnv == apiUrlEnv
    {
      jar := cookies;
      effects := [];
      this.apiUrlEnv := apiUrlEnv;
      minted := None;
    }

    /** `process.env.NEXT_PUBLIC_API_URL || 'http://localhost:8080'`. */
    function ApiUrl(): string
    {
      EnvOr(apiUrlEnv, DefaultApiUrl)
    }

    /** The `document.cookie` getter. */
    function CookieText(): string
      reads this
    {
      Join(jar)
    }

    /**
     * The `useEffect` body, given the eight draws of `generateDeviceId`.
     * Setting the cookie stores the new pair; the request is not awaited
     * and its failure is swallowed, so nothing here depends on its outcome.
     */
    method RunEffect(rs: seq<Nibble>)
      requires Valid() && |rs| == 8
      modifies this
      ensures Valid()
      ensures HasDeviceCookie(jar)
      ensures old(HasDeviceCookie(jar)) ==> jar == old(jar) && effects == old(effects)
      ensures !old(HasDeviceCookie(jar)) ==>
        var id := GenerateDeviceId(rs);
        && jar == old(jar) + [CookiePrefix + id]
        && effects == old(effects) + [SetCookie(CookieAssignment(id)), Send(NewDeviceLog(ApiUrl(), id))]
    {
      CookieMissingIff(jar);
      var cookieText := CookieText();
      if CookieMissing(cookieText) {
        var id := GenerateDeviceId(rs);
        var assignment := CookieAssignment(id);
        effects := effects + [SetCookie(assignment)];
        jar := jar + [CookiePrefix + id];
        var apiUrl := ApiUrl();
        effects := effects + [Send(NewDeviceLog(apiUrl, id))];
        minted := Some(id);
        assert StartsWith(CookiePrefix + id, CookiePrefix);
      }
    }
  }

  /** A valid page load has sent at most one log, and only for the id it stored. */
  lemma AtMostOneLog(b: Browser)
    requires b.Valid()
    ensures |SentRequests(b.effects)| <= 1
    ensures forall r :: r in SentRequests(b.effects) ==>
      b.minted.Some? && r == NewDeviceLog(b.ApiUrl(), b.minted.value) && CookiePrefix + b.minted.value in b.jar
  {
    if b.minted.Some? {
      var id := b.minted.value;
      var log := NewDeviceLog(b.ApiUrl(), id);
      assert b.effects[1..] == [Send(log)];
      assert b.effects[1..][1..] == [];
      assert SentRequests(b.effects[1..]) == [log];
      assert SentRequests(b.effects) == [log];
    }
  }

  /**
   * Running the effect again (React may run it twice) writes and sends
   * nothing more: the state is that of the first run alone.
   */
  method RunEffectTwice(b: Browser, first: seq<Nibble>, second: seq<Nibble>)
    requires b.Valid() && |first| == 8 && |second| == 8
    modifies b
    ensures b.Valid() && HasDeviceCookie(b.jar)
    ensures |SentRequests(b.effects)| <= 1
    ensures old(HasDeviceCookie(b.jar)) ==> b.jar == old(b.jar) && b.effects == old(b.effects)
    ensures !old(HasDeviceCookie(b.jar)) ==>
      var id := GenerateDeviceId(first);
      && b.jar == old(b.jar) + [CookiePrefix + id]
      && b.effects == old(b.effects) + [SetCookie(CookieAssignment(id)), Send(NewDeviceLog(b.ApiUrl(), id))]
  {
    b.RunEffect(first);
    b.RunEffect(second);
    AtMostOneLog(b);
  }
}
