/**
 * Reading the refresh token out of a `document.cookie` string, and choosing which
 * cookies a sign-out expires. The cookie string and the page's domain are parameters;
 * the cookie writes come back as the strings that would be assigned.
 */
module SessionToken {
  import opened Wrappers
  import opened JsStrings

  /** An item's key: the text before its first `=`, trimmed. */
  function ItemKey(item: string): string {
    Trim(Split(item, '=')[0])
  }

  /** An item's value: the untrimmed text between its first and second `=`, or absent without a `=`. */
  function ItemValue(item: string): Option<string> {
    var parts := Split(item, '=');
    if |parts| >= 2 then Some(parts[1]) else None
  }

  /** An item as `getCookie` destructures it: the trimmed key and the value. */
  datatype CookieEntry = CookieEntry(key: string, value: Option<string>)

  function ParseItem(item: string): CookieEntry {
    CookieEntry(ItemKey(item), ItemValue(item))
  }

  /** The items, parsed one by one. */
  function Entries(items: seq<string>): (r: seq<CookieEntry>)
    ensures |r| == |items|
  {
    seq(|items|, i requires 0 <= i < |items| => ParseItem(items[i]))
  }

  /** Entries folded into an object, each overwriting any earlier one with its key. */
  function EntryMap(entries: seq<CookieEntry>): map<string, Option<string>>
    decreases |entries|
  {
    if entries == [] then map[]
    else
      var last := entries[|entries| - 1];
      EntryMap(entries[..|entries| - 1])[last.key := last.value]
  }

  /** The object `getCookie` builds from `items`. */
  function CookieMapOf(items: seq<string>): map<string, Option<string>> {
    EntryMap(Entries(items))
  }

  /** A key is in the object exactly when some entry has it. */
  lemma {:induction false} EntryMapKeys(entries: seq<CookieEntry>, k: string)
    ensures k in EntryMap(entries) <==> exists i | 0 <= i < |entries| :: entries[i].key == k
    decreases |entries|
  {
    if entries != [] {
      var prefix := entries[..|entries| - 1];
      EntryMapKeys(prefix, k);
      assert forall i | 0 <= i < |prefix| :: prefix[i] == entries[i];
    }
  }

  /** The last entry with a key decides its value. */
  lemma {:induction false} LaterEntryWins(entries: seq<CookieEntry>, i: nat)
    requires i < |entries|
    requires forall j | i < j < |entries| :: entries[j].key != entries[i].key
    ensures entries[i].key in EntryMap(entries) && EntryMap(entries)[entries[i].key] == entries[i].value
    decreases |entries|
  {
    if i < |entries| - 1 {
      var prefix := entries[..|entries| - 1];
      assert prefix[i] == entries[i];
      assert forall j | i < j < |prefix| :: prefix[j] == entries[j];
      LaterEntryWins(prefix, i);
    }
  }

  /** An item built from `=`-free pieces has the first piece, trimmed, as key and the second as value. */
  lemma ItemOfParts(parts: seq<string>)
    requires |parts| >= 1
    requires forall i | 0 <= i < |parts| :: '=' !in parts[i]
    ensures ItemKey(Join(parts, '=')) == Trim(parts[0])
    ensures ItemValue(Join(parts, '=')) == if |parts| >= 2 then Some(parts[1]) else None
  {
    SplitJoin(parts, '=');
  }

  /** The value is cut at the second `=`: `rf=a=b` has key `rf` and value `a`. */
  lemma ValueCutAtSecondEquals(key: string, first: string, second: string)
    requires '=' !in key && '=' !in first && '=' !in second
    ensures ItemKey(key + "=" + first + "=" + second) == Trim(key)
    ensures ItemValue(key + "=" + first + "=" + second) == Some(first)
  {
    var parts := [key, first, second];
    assert parts[1..] == [first, second] && parts[1..][1..] == [second];
    assert Join(parts[1..], '=') == first + "=" + second;
    assert key + "=" + first + "=" + second == Join(parts, '=');
    ItemOfParts(parts);
  }

  /** An item without `=` has no value; one ending in its only `=` has the empty value. */
  lemma ValueAbsentOrEmpty(key: string)
    requires '=' !in key
    ensures ItemKey(key) == Trim(key) && ItemValue(key) == None
    ensures ItemKey(key + "=") == Trim(key) && ItemValue(key + "=") == Some("")
  {
    assert key + "=" == Join([key, ""], '=');
    ItemOfParts([key, ""]);
    ItemOfParts([key]);
  }

  /** A key is present exactly when some item has it. */
  lemma CookieMapKeys(items: seq<string>, k: string)
    ensures k in CookieMapOf(items) <==> exists i | 0 <= i < |items| :: ItemKey(items[i]) == k
  {
    var entries := Entries(items);
    EntryMapKeys(entries, k);
    if k in CookieMapOf(items) {
      var i :| 0 <= i < |entries| && entries[i].key == k;
      assert entries[i] == ParseItem(items[i]);
    } else {
      forall i | 0 <= i < |items| ensures ItemKey(items[i]) != k {
        assert entries[i] == ParseItem(items[i]);
      }
    }
  }

  /** The last item with a key decides its value. */
  lemma LaterItemWins(items: seq<string>, i: nat)
    requires i < |items|
    requires forall j | i < j < |items| :: ItemKey(items[j]) != ItemKey(items[i])
    ensures ItemKey(items[i]) in CookieMapOf(items)
    ensures CookieMapOf(items)[ItemKey(items[i])] == ItemValue(items[i])
  {
    var entries := Entries(items);
    assert entries[i] == ParseItem(items[i]);
    forall j | i < j < |entries| ensures entries[j].key != entries[i].key {
      assert entries[j] == ParseItem(items[j]);
    }
    LaterEntryWins(entries, i);
  }

  /** One more item updates the object with that item's key and value. */
  lemma CookieMapSnoc(items: seq<string>, i: nat)
    requires i < |items|
    ensures CookieMapOf(items[..i + 1]) == CookieMapOf(items[..i])[ItemKey(items[i]) := ItemValue(items[i])]
  {
    var entries := Entries(items[..i + 1]);
    assert entries[..i] == Entries(items[..i]) by {
      forall k | 0 <= k < i ensures entries[k] == Entries(items[..i])[k] {
        assert items[..i + 1][k] == items[..i][k];
      }
    }
    assert entries[i] == ParseItem(items[i]);
  }

  /** The same step, written with the pieces of `item.split("=")` that `getCookie` destructures. */
  lemma CookieMapStep(items: seq<string>, i: nat)
    requires i < |items|
    ensures var parts := Split(items[i], '=');
      CookieMapOf(items[..i + 1]) == CookieMapOf(items[..i])[Trim(parts[0]) := if |parts| >= 2 then Some(parts[1]) else None]
  {
    CookieMapSnoc(items, i);
  }

  /** `getCookie`. */
  method GetCookie(cookie: string) returns (trimmedCookie: map<string, Option<string>>)
    ensures trimmedCookie == CookieMapOf(Split(cookie, ';'))
  {
    var items := Split(cookie, ';');
    trimmedCookie := map[];
    var i := 0;
    while i < |items|
      invariant 0 <= i <= |items|
      invariant trimmedCookie == CookieMapOf(items[..i])
    {
      var parts := Split(items[i], '=');
      CookieMapStep(items, i);
      trimmedCookie := trimmedCookie[Trim(parts[0]) := if |parts| >= 2 then Some(parts[1]) else None];
      i := i + 1;
    }
    assert items[..i] == items;
  }

  /** `cookie.rf` when it is a non-empty string, else nothing. */
  function SessionTokenIn(cookieMap: map<string, Option<string>>): Option<string> {
    if "rf" in cookieMap && TruthyString(cookieMap["rf"]) then cookieMap["rf"] else None
  }

  /** `getSessionToken`. */
  method GetSessionToken(cookie: string) returns (token: Option<string>)
    ensures token == SessionTokenIn(CookieMapOf(Split(cookie, ';')))
    ensures token.Some? ==> token.value != ""
  {
    var cookieMap := GetCookie(cookie);
    if "rf" in cookieMap && TruthyString(cookieMap["rf"]) {
      token := cookieMap["rf"];
    } else {
      token := None;
    }
  }

  /** The token is the value of the last item keyed `rf`, unless that value is empty or absent; no `rf` item, no token. */
  lemma SessionTokenIsLastRfValue(items: seq<string>)
    ensures (forall i | 0 <= i < |items| :: ItemKey(items[i]) != "rf") ==> SessionTokenIn(CookieMapOf(items)) == None
    ensures forall i | 0 <= i < |items| && ItemKey(items[i]) == "rf" && (forall j | i < j < |items| :: ItemKey(items[j]) != "rf") ::
      SessionTokenIn(CookieMapOf(items)) == if TruthyString(ItemValue(items[i])) then ItemValue(items[i]) else None
  {
    CookieMapKeys(items, "rf");
    forall i | 0 <= i < |items| && ItemKey(items[i]) == "rf" && (forall j | i < j < |items| :: ItemKey(items[j]) != "rf")
      ensures SessionTokenIn(CookieMapOf(items)) == if TruthyString(ItemValue(items[i])) then ItemValue(items[i]) else None
    {
      LaterItemWins(items, i);
    }
  }

  /** A cookie holding just `rf=` (or any other key with an empty value) yields no token. */
  lemma EmptyTokenIsNone(key: string)
    requires '=' !in key
    ensures SessionTokenIn(CookieMapOf([key + "="])) == None
  {
    var items := [key + "="];
    ValueAbsentOrEmpty(key);
    LaterItemWins(items, 0);
    CookieMapKeys(items, "rf");
  }


  /** The name `deleteCookies` uses: the untrimmed text before the first `=`, or the whole item. */
  function CookieName(item: string): (r: string)
    ensures r <= item && '=' !in r
    ensures |r| < |item| ==> item[|r|] == '='
  {
    match IndexOf(item, '=')
    case Some(eqPos) => item[..eqPos]
    case None => item
  }

  /** That name is the piece `getCookie` trims into the key. */
  lemma CookieNameIsKeyUntrimmed(item: string)
    ensures CookieName(item) == Split(item, '=')[0]
    ensures Trim(CookieName(item)) == ItemKey(item)
  {
  }

  /** An item is expired when its name contains "rf" anywhere. */
  predicate IsDeletionTarget(item: string) {
    Includes(CookieName(item), "rf")
  }

  /** The three cookie assignments that expire `name`: on the path, on the domain, and on its subdomains. */
  function ExpiryWrites(name: string, domain: string): seq<string> {
    var expired := name + "=;expires=Thu, 01 Jan 1970 00:00:00 GMT; path=/";
    [expired, expired + "; domain=" + domain, expired + "; domain=." + domain]
  }

  /** The assignments `deleteCookies` makes for `items`, in order. */
  function DeletionWrites(items: seq<string>, domain: string): seq<string>
    decreases |items|
  {
    if items == [] then []
    else
      var last := items[|items| - 1];
      DeletionWrites(items[..|items| - 1], domain) + (if IsDeletionTarget(last) then ExpiryWrites(CookieName(last), domain) else [])
  }

  /** Every targeted item is expired in all three ways. */
  lemma {:induction false} DeletionWritesCoverTargets(items: seq<string>, domain: string, i: nat)
    requires i < |items| && IsDeletionTarget(items[i])
    ensures forall w | w in ExpiryWrites(CookieName(items[i]), domain) :: w in DeletionWrites(items, domain)
    decreases |items|
  {
    var prefix := items[..|items| - 1];
    if i < |items| - 1 {
      assert prefix[i] == items[i];
      DeletionWritesCoverTargets(prefix, domain, i);
    }
  }

  /** Every write expires some targeted item. */
  lemma {:induction false} DeletionWritesOnlyTargets(items: seq<string>, domain: string, w: string)
    requires w in DeletionWrites(items, domain)
    ensures exists i | 0 <= i < |items| :: IsDeletionTarget(items[i]) && w in ExpiryWrites(CookieName(items[i]), domain)
    decreases |items|
  {
    var prefix := items[..|items| - 1];
    var last := items[|items| - 1];
    if w in DeletionWrites(prefix, domain) {
      DeletionWritesOnlyTargets(prefix, domain, w);
      var i :| 0 <= i < |prefix| && IsDeletionTarget(prefix[i]) && w in ExpiryWrites(CookieName(prefix[i]), domain);
      assert prefix[i] == items[i];
      assert IsDeletionTarget(items[i]) && w in ExpiryWrites(CookieName(items[i]), domain);
    } else {
      assert IsDeletionTarget(last) && w in ExpiryWrites(CookieName(last), domain);
    }
  }

  /** `deleteCookies`, without the `localStorage` clearing. */
  method DeleteCookies(cookie: string, domain: string) returns (writes: seq<string>)
    ensures writes == DeletionWrites(Split(cookie, ';'), domain)
  {
    var cookies := Split(cookie, ';');
    writes := [];
    var i := 0;
    while i < |cookies|
      invariant 0 <= i <= |cookies|
      invariant writes == DeletionWrites(cookies[..i], domain)
    {
      var name := CookieName(cookies[i]);
      if Includes(name, "rf") {
        writes := writes + ExpiryWrites(name, domain);
      }
      assert cookies[..i + 1][..i] == cookies[..i] && cookies[..i + 1][i] == cookies[i];
      i := i + 1;
    }
    assert cookies[..i] == cookies;
  }

  /** Whatever item supplies the `rf` key is among those expired. */
  lemma TokenItemIsDeleted(item: string)
    requires ItemKey(item) == "rf"
    ensures IsDeletionTarget(item)
  {
    var name := CookieName(item);
    CookieNameIsKeyUntrimmed(item);
    TrimIsSlice(name);
    IncludesSlice(name, LeadingWhitespace(name), |Trim(name)|);
  }

  /** Any name with "rf" inside is expired, whatever its key. */
  lemma NamesContainingRfAreDeleted(before: string, after: string, value: string)
    requires '=' !in before && '=' !in after
    ensures CookieName(before + "rf" + after + "=" + value) == before + "rf" + after
    ensures IsDeletionTarget(before + "rf" + after + "=" + value)
  {
    var name := before + "rf" + after;
    var item := name + "=" + value;
    assert item[|name|] == '=' && item[..|name|] == name;
    IndexOfFirst(item, '=', |name|);
    assert name[|before|..|before| + 2] == "rf";
    IncludesSlice(name, |before|, 2);
  }

  /** For instance `surf=1`, whose name is `surf`. */
  lemma SurfIsDeleted()
    ensures CookieName("surf=1") == "surf" && IsDeletionTarget("surf=1")
  {
    assert "surf=1" == "su" + "rf" + "" + "=" + "1";
    assert "surf" == "su" + "rf" + "";
    NamesContainingRfAreDeleted("su", "", "1");
  }
}
