/** The administrator gate of internal/middleware/telegram_auth.go: HTTP
    Basic authentication, or a Telegram Web App `initData` string whose
    HMAC signature checks out and whose user id is on the allow-list.
    Cryptography, encodings and parsers are library calls; they are
    fields of `Primitives`, passed in as parameters. */
module TelegramAuth {
  import opened Wrappers
  import opened Text
  import opened Numbers
  import opened Sorting

  datatype TelegramUser = TelegramUser(id: int, firstName: string, lastName: string, username: string)

  /** Go's `url.Values`: each key with the values given for it, in order. */
  type Values = map<string, seq<string>>

  datatype Primitives = Primitives(
    /** `hmac.New(sha256.New, key)`, written `msg`, summed. */
    hmacSha256: (seq<bv8>, seq<bv8>) -> seq<bv8>,
    /** `hex.EncodeToString` */
    hexEncode: seq<bv8> -> string,
    /** `[]byte(s)` */
    utf8: string -> seq<bv8>,
    /** `base64.StdEncoding.DecodeString`, read back as a string. */
    base64Decode: string -> Option<string>,
    /** `url.ParseQuery` */
    parseQuery: string -> Option<Values>,
    /** `url.QueryUnescape` */
    queryUnescape: string -> Option<string>,
    /** `json.Unmarshal` into a `TelegramUser` */
    parseUser: string -> Option<TelegramUser>)

  /** The environment variables the gate reads; an unset one is "". */
  datatype Env = Env(adminPassword: string, telegramToken: string, adminTelegramIds: string)

  /** What the gate sees of a request: the `Authorization` and
      `X-Telegram-Init-Data` headers, the `tg_init_data` query parameter
      ("" when absent) and the raw value of the `tg_init_data` cookie. */
  datatype Request = Request(
    authorization: string,
    initDataHeader: string,
    initDataQuery: string,
    initDataCookie: Option<string>)

  /** Pass the request on, or answer 401 with a `WWW-Authenticate` header. */
  datatype Decision = Serve | Unauthorized(wwwAuthenticate: string)

  const BasicChallenge := "Basic realm=\"Lotto Admin\""

  // ---------------------------------------------------------------------
  // checkBasicAuth

  function CheckBasicAuth(p: Primitives, authorization: string, password: string): bool {
    if authorization == "" || !IsPrefix("Basic ", authorization) then false
    else match p.base64Decode(authorization[6..])
      case None => false
      case Some(payload) =>
        var pair := SplitN2(payload, ':');
        if |pair| != 2 then false
        else pair[0] == "admin" && pair[1] == password
  }

  lemma {:induction false} FirstIndexAt(s: string, c: char, i: nat)
    requires i < |s| && s[i] == c && c !in s[..i]
    ensures FirstIndex(s, c) == Some(i)
    decreases i
  {
    if i > 0 {
      assert s[..i] == [s[0]] + s[1..][..i - 1];
      FirstIndexAt(s[1..], c, i - 1);
    }
  }

  lemma AdminPair(payload: string, password: string)
    ensures (|SplitN2(payload, ':')| == 2 && SplitN2(payload, ':')[0] == "admin" && SplitN2(payload, ':')[1] == password)
            <==> payload == "admin:" + password
  {
    var r := FirstIndex(payload, ':');
    if payload == "admin:" + password {
      assert payload[..5] == "admin";
      FirstIndexAt(payload, ':', 5);
      assert payload[6..] == password;
    }
    if r.Some? && payload[..r.value] == "admin" && payload[r.value + 1..] == password {
      assert payload == payload[..5] + [':'] + payload[6..];
    }
  }

  /** Basic authentication passes exactly when the header is `Basic `
      followed by the base64 encoding of `admin:` and the configured
      password. The password may itself contain ':'; only the first ':'
      separates the user name. */
  lemma BasicAuthSpec(p: Primitives, authorization: string, password: string)
    ensures CheckBasicAuth(p, authorization, password) <==>
      IsPrefix("Basic ", authorization) && p.base64Decode(authorization[6..]) == Some("admin:" + password)
  {
    if IsPrefix("Basic ", authorization) {
      match p.base64Decode(authorization[6..])
      case None =>
      case Some(payload) => AdminPair(payload, password);
    }
  }

  /** With `ADMIN_PASSWORD` unset, the credentials `admin:` (empty
      password) are accepted. */
  lemma EmptyPasswordAdmits(p: Primitives, authorization: string)
    requires IsPrefix("Basic ", authorization) && p.base64Decode(authorization[6..]) == Some("admin:")
    ensures CheckBasicAuth(p, authorization, "")
  {
    BasicAuthSpec(p, authorization, "");
    assert "admin:" + "" == "admin:";
  }

  // ---------------------------------------------------------------------
  // The data-check string

  /** `params.Get(k)`: the first value given for `k`, or "". */
  function Get(params: Values, k: string): string {
    if k in params && |params[k]| > 0 then params[k][0] else ""
  }

  lemma {:induction false} Enumerate(keys: set<string>) returns (ks: seq<string>)
    ensures Distinct(ks) && forall k :: k in ks <==> k in keys
    decreases |keys|
  {
    if keys == {} {
      ks := [];
    } else {
      var k :| k in keys;
      var rest := Enumerate(keys - {k});
      ks := [k] + rest;
    }
  }

  lemma SignedKeysExist(params: Values)
    ensures exists ks :: StrictlyAscending(ks) && forall k :: k in ks <==> k in params && k != "hash"
  {
    var ks := Enumerate(params.Keys - {"hash"});
    SortDistinctStrict(ks);
    var sorted := SortBy(ks, Identity);
    forall k
      ensures k in sorted <==> k in params && k != "hash"
    {
      assert k in sorted <==> k in multiset(sorted);
      assert k in ks <==> k in multiset(ks);
    }
  }

  /** The keys that are signed: every key but `hash`, ascending. */
  ghost function SignedKeys(params: Values): (ks: seq<string>)
    ensures StrictlyAscending(ks)
    ensures forall k :: k in ks <==> k in params && k != "hash"
  {
    SignedKeysExist(params);
    var ks :| StrictlyAscending(ks) && forall k :: k in ks <==> k in params && k != "hash";
    ks
  }

  /** The `k=v` line of each key, in the order given. */
  function Lines(params: Values, keys: seq<string>): seq<string> {
    seq(|keys|, i requires 0 <= i < |keys| => keys[i] + "=" + Get(params, keys[i]))
  }

  /** The data-check string: the lines of the signed keys in ascending
      key order, joined by newlines. */
  ghost function CheckString(params: Values): string {
    Join(Lines(params, SignedKeys(params)), "\n")
  }

  /** Collects the keys in whatever order the map yields them (Go's map
      iteration order is unspecified; here it is an arbitrary choice),
      drops `hash`, sorts them, and joins their lines. */
  method BuildCheckString(params: Values) returns (r: string)
    ensures r == CheckString(params)
  {
    var keys := CollectKeys(params);
    SortDistinctStrict(keys);
    var sorted := SortBy(keys, Identity);
    forall k
      ensures k in sorted <==> k in SignedKeys(params)
    {
      assert k in sorted <==> k in multiset(sorted);
      assert k in keys <==> k in multiset(keys);
    }
    StrictlyAscendingUnique(sorted, SignedKeys(params));
    var parts := FormatLines(params, sorted);
    r := Join(parts, "\n");
  }

  /** The map loop: every key except `hash`, once each, in iteration
      order. */
  method CollectKeys(params: Values) returns (keys: seq<string>)
    ensures Distinct(keys)
    ensures forall k :: k in keys <==> k in params && k != "hash"
  {
    var remaining := params.Keys;
    keys := [];
    while remaining != {}
      invariant remaining <= params.Keys
      invariant Distinct(keys)
      invariant forall k :: k in keys <==> k in params && k !in remaining && k != "hash"
      decreases |remaining|
    {
      var k :| k in remaining;
      if k != "hash" {
        keys := keys + [k];
      }
      remaining := remaining - {k};
    }
  }

  /** The `k=v` line of each key, built one key at a time. */
  method FormatLines(params: Values, keys: seq<string>) returns (parts: seq<string>)
    ensures parts == Lines(params, keys)
  {
    parts := [];
    var i := 0;
    while i < |keys|
      invariant 0 <= i <= |keys|
      invariant |parts| == i
      invariant forall j :: 0 <= j < i ==> parts[j] == keys[j] + "=" + Get(params, keys[j])
    {
      parts := parts + [keys[i] + "=" + Get(params, keys[i])];
      i := i + 1;
    }
  }

  /** Every line of the check string is `k=v` for a signed key `k` and its
      first value, the keys strictly ascending; a line can start with
      `hash=` only when its own key does (a key such as `hash=x`, which
      percent-encoding allows), never for the `hash` field itself. */
  lemma CheckStringLines(params: Values)
    ensures var lines := Lines(params, SignedKeys(params));
      && CheckString(params) == Join(lines, "\n")
      && (forall i :: 0 <= i < |lines| ==>
            exists k :: k in params && k != "hash" && lines[i] == k + "=" + Get(params, k)
                        && (IsPrefix("hash=", lines[i]) ==> IsPrefix("hash=", k)))
      && (forall i, j :: 0 <= i < j < |lines| ==> LexLess(SignedKeys(params)[i], SignedKeys(params)[j]))
  {
    var ks := SignedKeys(params);
    var lines := Lines(params, ks);
    forall i | 0 <= i < |lines|
      ensures exists k :: k in params && k != "hash" && lines[i] == k + "=" + Get(params, k)
                          && (IsPrefix("hash=", lines[i]) ==> IsPrefix("hash=", k))
    {
      var k := ks[i];
      assert k in ks;
      HashLinePrefix(k, Get(params, k));
    }
  }

  /** A line `k=v` starts with `hash=` only if `k` is `hash` or starts
      with `hash=`. */
  lemma HashLinePrefix(k: string, v: string)
    ensures IsPrefix("hash=", k + "=" + v) ==> k == "hash" || IsPrefix("hash=", k)
  {
    var line := k + "=" + v;
    assert line[..|k|] == k;
    assert line[|k|] == '=';
  }

  /** The check string depends only on the signed keys and the first value
      of each: neither the `hash` field nor any later repeated value
      changes it. */
  lemma CheckStringDependsOnSignedPairs(m1: Values, m2: Values)
    requires forall k :: k != "hash" ==> (k in m1 <==> k in m2)
    requires forall k :: k in m1 && k != "hash" ==> Get(m1, k) == Get(m2, k)
    ensures CheckString(m1) == CheckString(m2)
  {
    StrictlyAscendingUnique(SignedKeys(m1), SignedKeys(m2));
    var ks := SignedKeys(m1);
    assert Lines(m1, ks) == Lines(m2, ks) by {
      forall i | 0 <= i < |ks|
        ensures Get(m1, ks[i]) == Get(m2, ks[i])
      {
        assert ks[i] in ks;
      }
    }
  }

  /** Splitting the check string at newlines gives its lines back, when no
      key or value contains a newline. */
  lemma CheckStringSplits(params: Values)
    requires params.Keys - {"hash"} != {}
    requires forall k :: k in params ==> '\n' !in k && '\n' !in Get(params, k)
    ensures Split(CheckString(params), '\n') == Lines(params, SignedKeys(params))
  {
    var ks := SignedKeys(params);
    var lines := Lines(params, ks);
    var k :| k in params.Keys - {"hash"};
    assert k in ks;
    forall i | 0 <= i < |lines|
      ensures '\n' !in lines[i]
    {
      assert ks[i] in ks;
      assert lines[i] == ks[i] + "=" + Get(params, ks[i]);
    }
    SplitJoin(lines, '\n');
  }

  // ---------------------------------------------------------------------
  // validateTelegramInitData

  /** hex(HMAC-SHA256(key = HMAC-SHA256(key = "WebAppData", token),
      checkString)). */
  function Signature(p: Primitives, token: string, checkString: string): string {
    var secretKey := p.hmacSha256(p.utf8("WebAppData"), p.utf8(token));
    p.hexEncode(p.hmacSha256(secretKey, p.utf8(checkString)))
  }

  /** The user an `initData` string authenticates, if any: the bot token
      must be set, the string must parse, carry a non-empty `hash` equal
      to the signature of its check string, and a non-empty `user` that
      parses. */
  ghost function InitDataUser(p: Primitives, token: string, initData: string): Option<TelegramUser> {
    if token == "" then None
    else match p.parseQuery(initData)
      case None => None
      case Some(params) =>
        var hash := Get(params, "hash");
        if hash == "" || Signature(p, token, CheckString(params)) != hash then None
        else
          var userJson := Get(params, "user");
          if userJson == "" then None else p.parseUser(userJson)
  }

  method ValidateInitData(p: Primitives, token: string, initData: string) returns (user: Option<TelegramUser>)
    ensures user == InitDataUser(p, token, initData)
  {
    if token == "" {
      return None;
    }
    var parsed := p.parseQuery(initData);
    if parsed.None? {
      return None;
    }
    var params := parsed.value;
    var hash := Get(params, "hash");
    if hash == "" {
      return None;
    }
    var checkString := BuildCheckString(params);
    var secretKey := p.hmacSha256(p.utf8("WebAppData"), p.utf8(token));
    var calculatedHash := p.hexEncode(p.hmacSha256(secretKey, p.utf8(checkString)));
    if calculatedHash != hash {
      return None;
    }
    var userJson := Get(params, "user");
    if userJson == "" {
      return None;
    }
    user := p.parseUser(userJson);
  }

  /** Validation accepts exactly when the token is set, the string parses,
      its `hash` is non-empty and equals the signature of its check
      string, and its `user` is non-empty and parses; it then yields that
      user. */
  lemma InitDataAccepted(p: Primitives, token: string, initData: string, u: TelegramUser)
    ensures InitDataUser(p, token, initData) == Some(u) <==>
      && token != ""
      && p.parseQuery(initData).Some?
      && Get(p.parseQuery(initData).value, "hash") != ""
      && Get(p.parseQuery(initData).value, "hash") == Signature(p, token, CheckString(p.parseQuery(initData).value))
      && Get(p.parseQuery(initData).value, "user") != ""
      && p.parseUser(Get(p.parseQuery(initData).value, "user")) == Some(u)
  {
  }

  /** For one token, two accepted strings whose signed fields agree carry
      the same `hash`: the hash is determined by the rest of the data. */
  lemma AcceptedHashDetermined(p: Primitives, token: string, d1: string, d2: string)
    requires InitDataUser(p, token, d1).Some? && InitDataUser(p, token, d2).Some?
    requires var m1, m2 := p.parseQuery(d1).value, p.parseQuery(d2).value;
      && (forall k :: k != "hash" ==> (k in m1 <==> k in m2))
      && (forall k :: k in m1 && k != "hash" ==> Get(m1, k) == Get(m2, k))
    ensures Get(p.parseQuery(d1).value, "hash") == Get(p.parseQuery(d2).value, "hash")
  {
    CheckStringDependsOnSignedPairs(p.parseQuery(d1).value, p.parseQuery(d2).value);
  }

  // ---------------------------------------------------------------------
  // isAdmin

  /** One allow-list entry names `userId`: trimmed, it parses as a base-10
      `int64` equal to it. */
  predicate AdminEntry(entry: string, userId: int) {
    ParseInt64(TrimSpace(entry)) == Some(userId)
  }

  /** `userId` is on the comma-separated allow-list. */
  predicate Admitted(adminIds: string, userId: int) {
    adminIds != "" && exists e :: e in Split(adminIds, ',') && AdminEntry(e, userId)
  }

  /** Scans the entries and returns at the first one naming `userId`. */
  method IsAdmin(userId: int, adminIds: string) returns (r: bool)
    ensures r == Admitted(adminIds, userId)
  {
    if adminIds == "" {
      return false;
    }
    var ids := Split(adminIds, ',');
    var i := 0;
    while i < |ids|
      invariant 0 <= i <= |ids|
      invariant forall j :: 0 <= j < i ==> !AdminEntry(ids[j], userId)
    {
      var id := TrimSpace(ids[i]);
      var adminId := ParseInt64(id);
      if adminId.Some? && adminId.value == userId {
        assert ids[i] in ids && AdminEntry(ids[i], userId);
        return true;
      }
      i := i + 1;
    }
    return false;
  }

  lemma {:induction false} SplitConcat(a: string, c: char, b: string)
    ensures Split(a + [c] + b, c) == Split(a, c) + Split(b, c)
    decreases |a|
  {
    if a == [] {
      assert a + [c] + b == [c] + b;
      assert ([c] + b)[1..] == b;
    } else {
      assert (a + [c] + b)[1..] == a[1..] + [c] + b;
      SplitConcat(a[1..], c, b);
    }
  }

  /** Joining two allow-lists with a comma admits exactly the ids either
      one admits; an empty or unparseable entry admits no one. */
  lemma AdmittedConcat(a: string, b: string, userId: int)
    ensures Admitted(a + [','] + b, userId) <==> Admitted(a, userId) || Admitted(b, userId)
  {
    SplitConcat(a, ',', b);
    assert Split("", ',') == [""];
    assert TrimSpace("") == "";
    assert (a + [','] + b)[|a|] == ',';
  }

  /** An id written in decimal is an allow-list that admits it. */
  lemma AdmitsDecimal(n: nat)
    requires n < Int64Bound
    ensures Admitted(DecimalDigits(n), n)
  {
    var s := DecimalDigits(n);
    DecimalDigitsValue(n);
    ParseDecimalDigits(n);
    TrimDecimalDigits(n);
    assert forall i :: 0 <= i < |s| ==> s[i] != ',';
    SplitNoSeparator(s, ',');
    assert s in Split(s, ',');
  }

  // ---------------------------------------------------------------------
  // TelegramAdminAuth

  /** Where `initData` comes from: the header, else the query parameter,
      else the URL-unescaped cookie (nothing if it does not unescape). */
  function InitDataSource(p: Primitives, req: Request): (src: string)
    ensures req.initDataHeader != "" ==> src == req.initDataHeader
    ensures req.initDataHeader == "" && req.initDataQuery != "" ==> src == req.initDataQuery
    ensures req.initDataHeader == "" && req.initDataQuery == "" && req.initDataCookie.Some?
            && p.queryUnescape(req.initDataCookie.value).Some? ==>
      src == p.queryUnescape(req.initDataCookie.value).value
    ensures req.initDataHeader == "" && req.initDataQuery == ""
            && (req.initDataCookie.None? || p.queryUnescape(req.initDataCookie.value).None?) ==>
      src == ""
  {
    if req.initDataHeader != "" then req.initDataHeader
    else if req.initDataQuery != "" then req.initDataQuery
    else match req.initDataCookie
      case None => ""
      case Some(raw) =>
        match p.queryUnescape(raw)
        case None => ""
        case Some(decoded) => decoded
  }

  /** The gate: Basic authentication first, then the Telegram `initData`. */
  method TelegramAdminAuth(p: Primitives, env: Env, req: Request) returns (d: Decision)
    ensures d == Serve || d == Unauthorized(BasicChallenge)
    ensures d == Serve <==>
      || CheckBasicAuth(p, req.authorization, env.adminPassword)
      || (&& InitDataSource(p, req) != ""
          && InitDataUser(p, env.telegramToken, InitDataSource(p, req)).Some?
          && Admitted(env.adminTelegramIds, InitDataUser(p, env.telegramToken, InitDataSource(p, req)).value.id))
  {
    if CheckBasicAuth(p, req.authorization, env.adminPassword) {
      return Serve;
    }
    var initData := req.initDataHeader;
    if initData == "" {
      initData := req.initDataQuery;
    }
    if initData == "" && req.initDataCookie.Some? {
      var decoded := p.queryUnescape(req.initDataCookie.value);
      if decoded.Some? {
        initData := decoded.value;
      }
    }
    assert initData == InitDataSource(p, req);
    if initData != "" {
      var user := ValidateInitData(p, env.telegramToken, initData);
      if user.Some? {
        var admin := IsAdmin(user.value.id, env.adminTelegramIds);
        if admin {
          return Serve;
        }
      }
    }
    return Unauthorized(BasicChallenge);
  }
}
