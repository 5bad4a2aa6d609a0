/**
 * `User`: a user of the extension with their preferences, their API keys
 * (at most one per service) and usage totals. The user is an object whose
 * key list and totals are updated in place, so it is a class here.
 */
module Users {
  import opened Results
  import opened Seqs
  import opened Chars
  import Languages
  import Digest
  import opened ApiKeys

  datatype AnalysisMode = Automatic | FactCheckOnly | LlmOnly | VectorOnly | Offline

  datatype UITheme = System | Light | Dark

  const MinUserIdLength := 8
  const MaxUserIdLength := 64
  const MinCacheDays := 1
  const MaxCacheDays := 365
  const DefaultCacheDays := 30
  const DefaultThreshold: real := 0.8
  const GeneratedIdPrefix: string := "user_"
  /** How many hex digits of a fresh uuid a generated id keeps. */
  const GeneratedHexLength := 12

  // ---------------------------------------------------------------- user id

  /** A character a user id may hold: a letter, a digit, `-` or `_`. */
  predicate IsIdChar(c: char) {
    IsAlnum(c) || c == '-' || c == '_'
  }

  /** A user id the validator accepts: 8 to 64 id characters. */
  predicate ValidUserId(v: string) {
    MinUserIdLength <= |v| <= MaxUserIdLength && All(v, IsIdChar)
  }

  /**
   * `user_id`: 8 to 64 characters (checked on the raw value), not blank, and
   * only letters, digits, `-` and `_`; the stripped value is stored, which is
   * the value itself since none of those characters is whitespace.
   */
  function ValidateUserId(v: string): (r: Result<string>)
    ensures r.Ok? <==> ValidUserId(v)
    ensures r.Ok? ==> r.value == v
    ensures |v| < MinUserIdLength ==> r == Err(TooShort)
    ensures |v| > MaxUserIdLength ==> r == Err(TooLong)
  {
    if |v| < MinUserIdLength then Err(TooShort)
    else if |v| > MaxUserIdLength then Err(TooLong)
    else if v == [] || Strip(v) == [] then Err(EmptyText)
    else if !All(v, IsAlnum) && !All(v, IsIdChar) then Err(InvalidFormat)
    else
      IdTrimmed(v);
      Ok(Strip(v))
  }

  /** A string of id characters has no surrounding whitespace, so stripping keeps it whole. */
  lemma IdTrimmed(v: string)
    requires All(v, IsIdChar) || All(v, IsAlnum)
    ensures Strip(v) == v
  {
    if v != [] {
      assert !IsSpace(v[0]) && !IsSpace(v[|v| - 1]);
    }
    StripTrimmed(v);
  }

  /** `f"user_{uuid.uuid4().hex[:12]}"`, given the 32 hex digits of the uuid. */
  function GeneratedId(uuidHex: string): string
    requires |uuidHex| == 32
  {
    GeneratedIdPrefix + uuidHex[..GeneratedHexLength]
  }

  /** A generated id is always a valid user id. */
  lemma GeneratedIdValid(uuidHex: string)
    requires |uuidHex| == 32 && Digest.IsLowerHex(uuidHex)
    ensures ValidateUserId(GeneratedId(uuidHex)) == Ok(GeneratedId(uuidHex))
  {
    var id := GeneratedId(uuidHex);
    forall i | 0 <= i < |id| ensures IsIdChar(id[i]) {
      if i >= |GeneratedIdPrefix| {
        assert id[i] == uuidHex[i - |GeneratedIdPrefix|];
        assert Digest.IsLowerHexChar(id[i]);
      }
    }
  }

  // --------------------------------------------------------------- key lists

  /** The service of each key, in order. */
  function Services(keys: seq<ApiKey>): (r: seq<string>)
    ensures |r| == |keys| && forall i :: 0 <= i < |keys| ==> r[i] == keys[i].serviceName
  {
    seq(|keys|, i requires 0 <= i < |keys| => keys[i].serviceName)
  }

  /** No two keys share a service. */
  predicate UniqueServices(keys: seq<ApiKey>) {
    Distinct(Services(keys))
  }

  /** `[key for key in keys if key.service_name != s]`. */
  function WithoutService(keys: seq<ApiKey>, s: string): (r: seq<ApiKey>)
    ensures |r| <= |keys|
    ensures forall i :: 0 <= i < |r| ==> r[i].serviceName != s
    ensures forall k :: k in r <==> k in keys && k.serviceName != s
  {
    if keys == [] then []
    else (if keys[0].serviceName == s then [] else [keys[0]]) + WithoutService(keys[1..], s)
  }

  /** The keys for service s, in order. */
  function ForService(keys: seq<ApiKey>, s: string): (r: seq<ApiKey>)
    ensures forall k :: k in r <==> k in keys && k.serviceName == s
  {
    if keys == [] then []
    else (if keys[0].serviceName == s then [keys[0]] else []) + ForService(keys[1..], s)
  }

  /** The first key for service s, or None. */
  function FirstFor(keys: seq<ApiKey>, s: string): (r: Option<ApiKey>)
    ensures r.Some? ==> r.value in keys && r.value.serviceName == s
    ensures r.None? <==> forall k :: k in keys ==> k.serviceName != s
  {
    if keys == [] then None
    else if keys[0].serviceName == s then Some(keys[0])
    else FirstFor(keys[1..], s)
  }

  /** The key found is at the first position holding its service. */
  lemma {:induction false} FirstForIsFirst(keys: seq<ApiKey>, s: string)
    requires FirstFor(keys, s).Some?
    ensures exists i :: 0 <= i < |keys| && keys[i] == FirstFor(keys, s).value
                        && forall j :: 0 <= j < i ==> keys[j].serviceName != s
  {
    var found := FirstFor(keys, s).value;
    if keys[0].serviceName != s {
      var tail := keys[1..];
      assert FirstFor(tail, s) == FirstFor(keys, s);
      FirstForIsFirst(tail, s);
      var i :| 0 <= i < |tail| && tail[i] == found && forall j :: 0 <= j < i ==> tail[j].serviceName != s;
      assert keys[i + 1] == found;
      forall j | 0 <= j < i + 1 ensures keys[j].serviceName != s {
        if j > 0 {
          assert keys[j] == tail[j - 1];
        }
      }
    } else {
      assert keys[0] == found;
    }
  }

  /** The first key for s is the first of the keys for s. */
  lemma {:induction false} FirstForIsHead(keys: seq<ApiKey>, s: string)
    ensures FirstFor(keys, s) == if ForService(keys, s) == [] then None else Some(ForService(keys, s)[0])
  {
    if keys != [] && keys[0].serviceName != s {
      FirstForIsHead(keys[1..], s);
    }
  }

  /** Filtering out s does not touch the keys of any other service. */
  lemma {:induction false} WithoutServiceKeepsOthers(keys: seq<ApiKey>, s: string, t: string)
    requires s != t
    ensures ForService(WithoutService(keys, s), t) == ForService(keys, t)
  {
    if keys != [] {
      WithoutServiceKeepsOthers(keys[1..], s, t);
      var head := if keys[0].serviceName == s then [] else [keys[0]];
      ForServiceConcat(head, WithoutService(keys[1..], s), t);
    }
  }

  lemma {:induction false} ForServiceConcat(a: seq<ApiKey>, b: seq<ApiKey>, t: string)
    ensures ForService(a + b, t) == ForService(a, t) + ForService(b, t)
  {
    if a == [] {
      assert a + b == b;
    } else {
      assert (a + b)[1..] == a[1..] + b;
      ForServiceConcat(a[1..], b, t);
    }
  }

  /** A service occurs in a non-empty list when it is the head's or occurs in the tail. */
  lemma InServicesCons(keys: seq<ApiKey>, s: string)
    requires keys != []
    ensures s in Services(keys) <==> keys[0].serviceName == s || s in Services(keys[1..])
  {
    assert Services(keys) == [keys[0].serviceName] + Services(keys[1..]);
  }

  /** The filter removes something exactly when some key has the service. */
  lemma {:induction false} WithoutServiceShrinks(keys: seq<ApiKey>, s: string)
    ensures |WithoutService(keys, s)| < |keys| <==> s in Services(keys)
  {
    if keys != [] {
      WithoutServiceShrinks(keys[1..], s);
      InServicesCons(keys, s);
    }
  }

  /** Filtering keeps the services unique. */
  lemma {:induction false} WithoutServiceUnique(keys: seq<ApiKey>, s: string)
    requires UniqueServices(keys)
    ensures UniqueServices(WithoutService(keys, s))
  {
    if keys != [] {
      var tail := keys[1..];
      var rest := WithoutService(tail, s);
      UniqueTail(keys);
      WithoutServiceUnique(tail, s);
      if keys[0].serviceName != s {
        assert WithoutService(keys, s) == [keys[0]] + rest;
        NotInServices(rest, tail, keys[0].serviceName);
        UniqueCons(keys[0], rest);
      } else {
        assert WithoutService(keys, s) == [] + rest == rest;
      }
    }
  }

  /** The tail of a list of unique services is unique and lacks the head's service. */
  lemma UniqueTail(keys: seq<ApiKey>)
    requires keys != [] && UniqueServices(keys)
    ensures UniqueServices(keys[1..]) && keys[0].serviceName !in Services(keys[1..])
  {
    var tail := keys[1..];
    forall i, j | 0 <= i < j < |tail| ensures Services(tail)[i] != Services(tail)[j] {
      assert Services(keys)[i + 1] != Services(keys)[j + 1];
    }
    forall i | 0 <= i < |tail| ensures Services(tail)[i] != keys[0].serviceName {
      assert Services(keys)[i + 1] != Services(keys)[0];
    }
  }

  /** A key whose service the unique rest lacks can go in front. */
  lemma UniqueCons(k: ApiKey, rest: seq<ApiKey>)
    requires UniqueServices(rest) && k.serviceName !in Services(rest)
    ensures UniqueServices([k] + rest)
  {
    var r := [k] + rest;
    forall i, j | 0 <= i < j < |r| ensures Services(r)[i] != Services(r)[j] {
      if i > 0 {
        assert Services(rest)[i - 1] != Services(rest)[j - 1];
      } else {
        assert Services(r)[j] == Services(rest)[j - 1];
      }
    }
  }

  /** A service missing from a list is missing from every list drawn from it. */
  lemma NotInServices(sub: seq<ApiKey>, sup: seq<ApiKey>, x: string)
    requires forall k :: k in sub ==> k in sup
    requires x !in Services(sup)
    ensures x !in Services(sub)
  {
    forall i | 0 <= i < |sub| ensures Services(sub)[i] != x {
      assert sub[i] in sup;
      var m :| 0 <= m < |sup| && sup[m] == sub[i];
      assert Services(sup)[m] != x;
    }
  }

  // ----------------------------------------------------- validate_api_keys

  /** The first key of each service, in input order, built from the end as the loop extends it. */
  function FirstPerService(keys: seq<ApiKey>): (r: seq<ApiKey>)
    ensures |r| <= |keys|
  {
    if keys == [] then []
    else
      var front := FirstPerService(keys[..|keys| - 1]);
      var k := keys[|keys| - 1];
      if k.serviceName in Services(front) then front else front + [k]
  }

  /** Appending a key changes the first key of its service only when there was none. */
  lemma {:induction false} FirstForSnoc(keys: seq<ApiKey>, k: ApiKey, s: string)
    ensures FirstFor(keys + [k], s) ==
      if FirstFor(keys, s).Some? then FirstFor(keys, s) else if k.serviceName == s then Some(k) else None
  {
    if keys != [] {
      assert (keys + [k])[1..] == keys[1..] + [k];
      FirstForSnoc(keys[1..], k, s);
    }
  }

  /**
   * The de-duplicated list answers every lookup as the input does: the key
   * kept for a service is the first one the input has for it.
   */
  lemma {:induction false} FirstPerServiceLookup(keys: seq<ApiKey>, s: string)
    ensures FirstFor(FirstPerService(keys), s) == FirstFor(keys, s)
  {
    if keys != [] {
      var init := keys[..|keys| - 1];
      var k := keys[|keys| - 1];
      var front := FirstPerService(init);
      FirstPerServiceLookup(init, s);
      FirstForSnoc(init, k, s);
      assert init + [k] == keys;
      if k.serviceName !in Services(front) {
        FirstForSnoc(front, k, s);
      } else if k.serviceName == s {
        ListedServiceFound(front, s);
      }
    }
  }

  /** A service that some key carries has a first key. */
  lemma ListedServiceFound(keys: seq<ApiKey>, s: string)
    requires s in Services(keys)
    ensures FirstFor(keys, s).Some?
  {
    var i :| 0 <= i < |keys| && Services(keys)[i] == s;
    assert keys[i] in keys;
  }

  /** No service appears twice in the de-duplicated list. */
  lemma {:induction false} FirstPerServiceUnique(keys: seq<ApiKey>)
    ensures UniqueServices(FirstPerService(keys))
  {
    if keys != [] {
      var front := FirstPerService(keys[..|keys| - 1]);
      var k := keys[|keys| - 1];
      FirstPerServiceUnique(keys[..|keys| - 1]);
      if k.serviceName !in Services(front) {
        var r := front + [k];
        forall i, j | 0 <= i < j < |r| ensures Services(r)[i] != Services(r)[j] {
          if j < |front| {
            assert Services(front)[i] != Services(front)[j];
          } else {
            assert Services(r)[i] == Services(front)[i];
          }
        }
      }
    }
  }

  /** Every kept key comes from the input. */
  lemma {:induction false} FirstPerServiceFromInput(keys: seq<ApiKey>)
    ensures forall k :: k in FirstPerService(keys) ==> k in keys
  {
    if keys != [] {
      FirstPerServiceFromInput(keys[..|keys| - 1]);
      assert forall k :: k in keys[..|keys| - 1] ==> k in keys;
    }
  }

  /** A list whose services are already unique is kept as it is. */
  lemma {:induction false} FirstPerServiceFixed(keys: seq<ApiKey>)
    requires UniqueServices(keys)
    ensures FirstPerService(keys) == keys
  {
    if keys != [] {
      var init := keys[..|keys| - 1];
      var k := keys[|keys| - 1];
      assert UniqueServices(init) by {
        forall i, j | 0 <= i < j < |init| ensures Services(init)[i] != Services(init)[j] {
          assert Services(keys)[i] != Services(keys)[j];
        }
      }
      FirstPerServiceFixed(init);
      forall i | 0 <= i < |init| ensures Services(init)[i] != k.serviceName {
        assert Services(keys)[i] != Services(keys)[|keys| - 1];
      }
      assert init + [k] == keys;
    }
  }

  /** De-duplicating twice is de-duplicating once. */
  lemma FirstPerServiceIdempotent(keys: seq<ApiKey>)
    ensures FirstPerService(FirstPerService(keys)) == FirstPerService(keys)
  {
    FirstPerServiceUnique(keys);
    FirstPerServiceFixed(FirstPerService(keys));
  }

  /** The loop state after i keys: the first key of each service so far, and the set of their services. */
  ghost predicate KeptKeys(v: seq<ApiKey>, i: nat, unique: seq<ApiKey>, seen: set<string>)
    requires i <= |v|
  {
    unique == FirstPerService(v[..i]) && forall s :: s in seen <==> s in Services(unique)
  }

  /** One iteration of the `validate_api_keys` loop keeps the loop state. */
  lemma ApiKeyStep(v: seq<ApiKey>, i: nat, unique: seq<ApiKey>, seen: set<string>,
                   unique': seq<ApiKey>, seen': set<string>)
    requires i < |v| && KeptKeys(v, i, unique, seen)
    requires v[i].serviceName !in seen ==> unique' == unique + [v[i]] && seen' == seen + {v[i].serviceName}
    requires v[i].serviceName in seen ==> unique' == unique && seen' == seen
    ensures KeptKeys(v, i + 1, unique', seen')
  {
    assert v[..i + 1][..i] == v[..i];
    var r := unique + [v[i]];
    assert Services(r) == Services(unique) + [v[i].serviceName];
  }

  /** The body of the `validate_api_keys` loop: keep the key when its service is new. */
  method AddFirstKey(v: seq<ApiKey>, i: nat, unique: seq<ApiKey>, seen: set<string>)
    returns (unique': seq<ApiKey>, seen': set<string>)
    requires i < |v| && KeptKeys(v, i, unique, seen)
    ensures KeptKeys(v, i + 1, unique', seen')
  {
    unique', seen' := unique, seen;
    if v[i].serviceName !in seen {
      unique' := unique + [v[i]];
      seen' := seen + {v[i].serviceName};
    }
    ApiKeyStep(v, i, unique, seen, unique', seen');
  }

  /** `validate_api_keys`: the loop with its `seen_services` set. */
  method ValidateApiKeys(v: seq<ApiKey>) returns (unique: seq<ApiKey>)
    ensures unique == FirstPerService(v)
  {
    if v == [] {
      return [];
    }
    unique := [];
    var seen: set<string> := {};
    var i := 0;
    assert v[..0] == [];
    while i < |v|
      invariant 0 <= i <= |v|
      invariant KeptKeys(v, i, unique, seen)
    {
      unique, seen := AddFirstKey(v, i, unique, seen);
      i := i + 1;
    }
    assert v[..i] == v;
  }

  // -------------------------------------------------------------- the entity

  /** The range and shape checks every constructed user passes. */
  predicate ValidSettings(userId: string, apiKeys: seq<ApiKey>, cacheDurationDays: int,
                          languagePreference: string, confidenceThreshold: real) {
    ValidUserId(userId)
    && UniqueServices(apiKeys)
    && MinCacheDays <= cacheDurationDays <= MaxCacheDays
    && Languages.MinCodeLength <= |languagePreference| <= Languages.MaxCodeLength
    && All(languagePreference, NotUpper)
    && 0.0 <= confidenceThreshold <= 1.0
  }

  class User {
    var userId: string
    var analysisMode: AnalysisMode
    var uiTheme: UITheme
    var apiKeys: seq<ApiKey>
    var autoAnalyze: bool
    var cacheEnabled: bool
    var cacheDurationDays: int
    var languagePreference: string
    var confidenceThreshold: real
    var createdAt: int
    var lastActiveAt: int
    var totalAnalyses: nat
    var totalCostCents: nat

    predicate Valid()
      reads this`userId, this`apiKeys, this`cacheDurationDays, this`languagePreference, this`confidenceThreshold
    {
      ValidSettings(userId, apiKeys, cacheDurationDays, languagePreference, confidenceThreshold)
    }

    /** Stores already validated fields; the checks are made by `New`. */
    constructor Init(userId: string, analysisMode: AnalysisMode, uiTheme: UITheme, apiKeys: seq<ApiKey>,
                     autoAnalyze: bool, cacheEnabled: bool, cacheDurationDays: int, languagePreference: string,
                     confidenceThreshold: real, totalAnalyses: nat, totalCostCents: nat, now: int)
      ensures this.userId == userId && this.analysisMode == analysisMode && this.uiTheme == uiTheme
      ensures this.apiKeys == apiKeys && this.autoAnalyze == autoAnalyze && this.cacheEnabled == cacheEnabled
      ensures this.cacheDurationDays == cacheDurationDays && this.languagePreference == languagePreference
      ensures this.confidenceThreshold == confidenceThreshold
      ensures this.totalAnalyses == totalAnalyses && this.totalCostCents == totalCostCents
      ensures this.createdAt == now && this.lastActiveAt == now
    {
      this.userId := userId;
      this.analysisMode := analysisMode;
      this.uiTheme := uiTheme;
      this.apiKeys := apiKeys;
      this.autoAnalyze := autoAnalyze;
      this.cacheEnabled := cacheEnabled;
      this.cacheDurationDays := cacheDurationDays;
      this.languagePreference := languagePreference;
      this.confidenceThreshold := confidenceThreshold;
      this.totalAnalyses := totalAnalyses;
      this.totalCostCents := totalCostCents;
      this.createdAt := now;
      this.lastActiveAt := now;
    }

    /**
     * `User(...)`: the field bounds are checked on the raw values, then the
     * validators store the id, the first key of each service and the
     * normalised language code. Both timestamps are `now`.
     */
    static method New(userId: string, analysisMode: AnalysisMode, uiTheme: UITheme, apiKeys: seq<ApiKey>,
                      autoAnalyze: bool, cacheEnabled: bool, cacheDurationDays: int, languagePreference: string,
                      confidenceThreshold: real, totalAnalyses: int, totalCostCents: int, now: int)
      returns (r: Result<User>)
      ensures r.Ok? <==> ValidateUserId(userId).Ok? && MinCacheDays <= cacheDurationDays <= MaxCacheDays
                         && Languages.ValidateCode(languagePreference).Ok? && 0.0 <= confidenceThreshold <= 1.0
                         && totalAnalyses >= 0 && totalCostCents >= 0
      ensures r.Ok? ==> fresh(r.value) && r.value.Valid()
      ensures r.Ok? ==> var u := r.value;
        u.userId == userId && u.analysisMode == analysisMode && u.uiTheme == uiTheme
        && u.apiKeys == FirstPerService(apiKeys) && u.autoAnalyze == autoAnalyze && u.cacheEnabled == cacheEnabled
        && u.cacheDurationDays == cacheDurationDays
        && u.languagePreference == Languages.NormalizeCode(languagePreference)
        && u.confidenceThreshold == confidenceThreshold
        && u.totalAnalyses == totalAnalyses && u.totalCostCents == totalCostCents
        && u.createdAt == now && u.lastActiveAt == now
    {
      var id := ValidateUserId(userId);
      var language := Languages.ValidateCode(languagePreference);
      if id.Err? {
        return Err(id.error);
      }
      if !(MinCacheDays <= cacheDurationDays <= MaxCacheDays) || !(0.0 <= confidenceThreshold <= 1.0) {
        return Err(OutOfRange);
      }
      if language.Err? {
        return Err(language.error);
      }
      if totalAnalyses < 0 || totalCostCents < 0 {
        return Err(Negative);
      }
      var keys := ValidateApiKeys(apiKeys);
      FirstPerServiceUnique(apiKeys);
      LowerStrAll(languagePreference);
      var u := new User.Init(id.value, analysisMode, uiTheme, keys, autoAnalyze, cacheEnabled, cacheDurationDays,
                             language.value, confidenceThreshold, totalAnalyses, totalCostCents, now);
      return Ok(u);
    }

    /**
     * `User.create_new`: the documented defaults (automatic analysis, system
     * theme, no keys, no auto-analysis, cache on for 30 days, "pt", 0.8); a
     * blank id is replaced by "user_" and twelve digits of a fresh uuid.
     */
    static method CreateNew(userId: string, uuidHex: string, now: int) returns (r: Result<User>)
      requires |uuidHex| == 32 && Digest.IsLowerHex(uuidHex)
      ensures r.Ok? <==> All(userId, IsSpace) || ValidateUserId(userId).Ok?
      ensures r.Ok? ==> fresh(r.value) && r.value.Valid()
      ensures r.Ok? ==> var u := r.value;
        u.userId == (if All(userId, IsSpace) then GeneratedId(uuidHex) else userId)
        && u.analysisMode == Automatic && u.uiTheme == System && u.apiKeys == []
        && !u.autoAnalyze && u.cacheEnabled && u.cacheDurationDays == DefaultCacheDays
        && u.languagePreference == Languages.DefaultLanguage && u.confidenceThreshold == DefaultThreshold
        && u.totalAnalyses == 0 && u.totalCostCents == 0 && u.createdAt == now && u.lastActiveAt == now
    {
      var id := userId;
      if userId == [] || Strip(userId) == [] {
        id := GeneratedId(uuidHex);
        GeneratedIdValid(uuidHex);
      }
      DefaultLanguageKept();
      r := New(id, Automatic, System, [], false, true, DefaultCacheDays, Languages.DefaultLanguage,
               DefaultThreshold, 0, 0, now);
    }

    /** `add_api_key`: drop the keys of the new key's service, then append it. */
    method AddApiKey(k: ApiKey)
      requires Valid()
      modifies this`apiKeys
      ensures Valid()
      ensures apiKeys == WithoutService(old(apiKeys), k.serviceName) + [k]
    {
      WithoutServiceUnique(apiKeys, k.serviceName);
      apiKeys := WithoutService(apiKeys, k.serviceName);
      AppendNewService(apiKeys, k);
      apiKeys := apiKeys + [k];
    }

    /** `remove_api_key`: drop the keys of the service; true when there was one. */
    method RemoveApiKey(s: string) returns (removed: bool)
      requires Valid()
      modifies this`apiKeys
      ensures Valid()
      ensures apiKeys == WithoutService(old(apiKeys), s)
      ensures removed <==> s in Services(old(apiKeys))
    {
      var originalCount := |apiKeys|;
      WithoutServiceUnique(apiKeys, s);
      WithoutServiceShrinks(apiKeys, s);
      apiKeys := WithoutService(apiKeys, s);
      removed := |apiKeys| < originalCount;
    }

    /** `get_api_key`: the first key of the service, or None. */
    function GetApiKey(s: string): (r: Option<ApiKey>)
      reads this
      ensures r.None? <==> forall k :: k in apiKeys ==> k.serviceName != s
      ensures r.Some? ==> r.value in apiKeys && r.value.serviceName == s
    {
      FirstFor(apiKeys, s)
    }

    /** `has_api_key`: some key belongs to the service. */
    predicate HasApiKey(s: string)
      reads this
      ensures HasApiKey(s) <==> GetApiKey(s).Some?
    {
      exists k :: k in apiKeys && k.serviceName == s
    }

    /** `record_analysis`: one more analysis, the cost added when positive, and the activity time. */
    method RecordAnalysis(costCents: int, now: int)
      requires Valid()
      modifies this`totalAnalyses, this`totalCostCents, this`lastActiveAt
      ensures Valid()
      ensures totalAnalyses == old(totalAnalyses) + 1
      ensures totalCostCents == old(totalCostCents) + (if costCents > 0 then costCents else 0)
      ensures lastActiveAt == now
    {
      totalAnalyses := totalAnalyses + 1;
      totalCostCents := totalCostCents + (if costCents > 0 then costCents else 0);
      lastActiveAt := now;
    }
  }

  /** "pt" passes the language check unchanged. */
  lemma DefaultLanguageKept()
    ensures Languages.ValidateCode(Languages.DefaultLanguage) == Ok(Languages.DefaultLanguage)
  {
    Languages.TwoLetterCodeStable(Languages.DefaultLanguage);
  }

  /** Appending a key whose service is absent keeps the services unique. */
  lemma AppendNewService(keys: seq<ApiKey>, k: ApiKey)
    requires UniqueServices(keys) && k.serviceName !in Services(keys)
    ensures UniqueServices(keys + [k])
  {
    assert Services(keys + [k]) == Services(keys) + [k.serviceName];
  }

  /** After adding k, k is the last key and the one key of its service. */
  lemma AddApiKeyOwnService(keys: seq<ApiKey>, k: ApiKey)
    ensures var r := WithoutService(keys, k.serviceName) + [k];
      ForService(r, k.serviceName) == [k] && r[|r| - 1] == k && FirstFor(r, k.serviceName) == Some(k)
  {
    var w := WithoutService(keys, k.serviceName);
    ForServiceConcat(w, [k], k.serviceName);
    NoneForFiltered(keys, k.serviceName);
    assert ForService([k], k.serviceName) == [k] by {
      assert [k][1..] == [];
    }
    FirstForIsHead(w + [k], k.serviceName);
  }

  /** Adding k leaves the keys of every other service as they were, in the same order. */
  lemma AddApiKeyOtherServices(keys: seq<ApiKey>, k: ApiKey, t: string)
    requires t != k.serviceName
    ensures var r := WithoutService(keys, k.serviceName) + [k];
      ForService(r, t) == ForService(keys, t) && FirstFor(r, t) == FirstFor(keys, t)
  {
    var w := WithoutService(keys, k.serviceName);
    ForServiceConcat(w, [k], t);
    WithoutServiceKeepsOthers(keys, k.serviceName, t);
    assert ForService([k], t) == [] by {
      assert [k][1..] == [];
    }
    assert ForService(w + [k], t) == ForService(w, t) + [];
    FirstForIsHead(w + [k], t);
    FirstForIsHead(keys, t);
  }

  /** After removing s, no key has service s and the keys of every other service are unchanged. */
  lemma RemoveApiKeyEffect(keys: seq<ApiKey>, s: string, t: string)
    requires t != s
    ensures var r := WithoutService(keys, s);
      ForService(r, s) == [] && FirstFor(r, s) == None
      && ForService(r, t) == ForService(keys, t) && FirstFor(r, t) == FirstFor(keys, t)
  {
    var r := WithoutService(keys, s);
    NoneForFiltered(keys, s);
    WithoutServiceKeepsOthers(keys, s, t);
    FirstForIsHead(r, s);
    FirstForIsHead(r, t);
    FirstForIsHead(keys, t);
  }

  /** A filtered list has no keys for the filtered service. */
  lemma {:induction false} NoneForFiltered(keys: seq<ApiKey>, s: string)
    ensures ForService(WithoutService(keys, s), s) == []
  {
    if keys != [] {
      NoneForFiltered(keys[1..], s);
      var head := if keys[0].serviceName == s then [] else [keys[0]];
      ForServiceConcat(head, WithoutService(keys[1..], s), s);
    }
  }
}
