/**
 * The sign-in guard run once when a page mounts: if no cookie item starts with `rf=`,
 * a local page shows an error toast and any other page is sent to the sign-in URL.
 * The cookie string, host name, configured URL, current address and the URL encoder
 * are parameters; the effects come back as values.
 */
module AuthCheck {
  import opened Wrappers
  import opened JsStrings
  import opened SessionToken

  /** `hasRefreshToken`: some `;`-separated item, once trimmed, starts with `rf=`. */
  function HasRefreshToken(cookie: string): (r: bool)
    ensures r <==> exists item | item in Split(cookie, ';') :: StartsWith(Trim(item), "rf=")
    ensures r ==> "rf" in CookieMapOf(Split(cookie, ';'))
  {
    var cookies := Split(cookie, ';');
    RfItemGivesKey(cookies);
    exists i | 0 <= i < |cookies| :: StartsWith(Trim(cookies[i]), "rf=")
  }

  /** In whitespace, then `rf=`, the first `=` is the one after `rf`. */
  lemma PaddedRfFirstEquals(item: string, off: nat)
    requires off + 3 <= |item| && item[off] == 'r' && item[off + 1] == 'f' && item[off + 2] == '='
    requires forall k | 0 <= k < off :: IsJsWhitespace(item[k])
    ensures IndexOf(item, '=') == Some(off + 2)
  {
    var w, v := item[..off], item[off + 3..];
    forall k | 0 <= k < |w| ensures w[k] != '=' {
      WhitespaceIsNotEquals(w[k]);
    }
    assert '=' !in w + "rf";
    assert item[off..off + 3] == "rf=";
    assert item == w + item[off..off + 3] + v;
    assert item == (w + "rf") + ['='] + v;
    IndexOfAfterFreePrefix(w + "rf", v, '=');
  }

  lemma WhitespaceIsNotEquals(c: char)
    requires IsJsWhitespace(c)
    ensures c != '='
  {
  }

  /** Its name, for `deleteCookies`, is the whitespace followed by `rf`. */
  lemma PaddedRfName(item: string, off: nat)
    requires off + 3 <= |item| && item[off] == 'r' && item[off + 1] == 'f' && item[off + 2] == '='
    requires forall k | 0 <= k < off :: IsJsWhitespace(item[k])
    ensures CookieName(item) == item[..off] + "rf"
  {
    PaddedRfFirstEquals(item, off);
    assert item[off..off + 2] == "rf";
    assert item[..off + 2] == item[..off] + item[off..off + 2];
  }

  /** An item that is whitespace, then `rf=`, then anything, is keyed `rf`. */
  lemma PaddedRfItemIsKeyedRf(item: string, off: nat)
    requires off + 3 <= |item| && item[off] == 'r' && item[off + 1] == 'f' && item[off + 2] == '='
    requires forall k | 0 <= k < off :: IsJsWhitespace(item[k])
    ensures ItemKey(item) == "rf"
  {
    PaddedRfName(item, off);
    CookieNameIsKeyUntrimmed(item);
    TrimOfPaddedWord(item[..off], "rf");
  }

  /** Trimmed text starting with `rf=` begins with those three characters. */
  lemma TrimmedRfChars(item: string)
    requires StartsWith(Trim(item), "rf=")
    ensures 3 <= |Trim(item)| && Trim(item)[0] == 'r' && Trim(item)[1] == 'f' && Trim(item)[2] == '='
  {
    StartsWithAt(Trim(item), "rf=", 0);
    StartsWithAt(Trim(item), "rf=", 1);
    StartsWithAt(Trim(item), "rf=", 2);
  }

  /** An item whose trimmed text begins `r`, `f`, `=` is keyed `rf`. */
  lemma TrimmedRfIsKeyedRf(item: string)
    requires 3 <= |Trim(item)| && Trim(item)[0] == 'r' && Trim(item)[1] == 'f' && Trim(item)[2] == '='
    ensures ItemKey(item) == "rf"
  {
    TrimAt(item, 0);
    TrimAt(item, 1);
    TrimAt(item, 2);
    LeadingWhitespaceRun(item);
    PaddedRfItemIsKeyedRf(item, LeadingWhitespace(item));
  }

  /** An item whose trimmed text starts with `rf=` is keyed `rf` by `getCookie`. */
  lemma RfItemIsKeyedRf(item: string)
    requires StartsWith(Trim(item), "rf=")
    ensures ItemKey(item) == "rf"
  {
    TrimmedRfChars(item);
    TrimmedRfIsKeyedRf(item);
  }

  /** When some item's trimmed text starts with `rf=`, `getCookie` has an `rf` key (though perhaps an empty value). */
  lemma RfItemGivesKey(cookies: seq<string>)
    ensures (exists i | 0 <= i < |cookies| :: StartsWith(Trim(cookies[i]), "rf=")) ==> "rf" in CookieMapOf(cookies)
  {
    if i :| 0 <= i < |cookies| && StartsWith(Trim(cookies[i]), "rf=") {
      RfItemIsKeyedRf(cookies[i]);
      CookieMapKeys(cookies, "rf");
    }
  }

  /** For a cookie with no `;`, the guard looks at the trimmed cookie alone. */
  lemma SingleItemGuard(cookie: string)
    requires ';' !in cookie
    ensures Split(cookie, ';') == [cookie]
    ensures HasRefreshToken(cookie) <==> StartsWith(Trim(cookie), "rf=")
  {
    var cookies := Split(cookie, ';');
    assert cookies == [cookie];
    if StartsWith(Trim(cookie), "rf=") {
      assert StartsWith(Trim(cookies[0]), "rf=");
    }
  }

  /** `rf=` with an empty value counts as present. */
  lemma EmptyRfIsPresent()
    ensures HasRefreshToken("rf=")
  {
    SingleItemGuard("rf=");
    TrimOfWord("rf=");
  }

  /** A key merely ending in `rf` does not count. */
  lemma LongerKeyIsAbsent()
    ensures !HasRefreshToken("xrf=1")
  {
    SingleItemGuard("xrf=1");
    LongerKeyIsTrimmed();
    LongerKeyLacksPrefix();
  }

  lemma LongerKeyIsTrimmed()
    ensures Trim("xrf=1") == "xrf=1"
  {
    TrimOfWord("xrf=1");
  }

  lemma LongerKeyLacksPrefix()
    ensures !StartsWith("xrf=1", "rf=")
  {
    assert "xrf=1"[..3][0] == 'x';
  }

  /** Nor does `rf` without `=`. */
  lemma BareRfIsAbsent()
    ensures !HasRefreshToken("rf")
  {
    SingleItemGuard("rf");
    TrimOfWord("rf");
  }

  /** `getSessionToken` finds nothing in the one item `rf=`. */
  lemma EmptyRfHasNoToken()
    ensures SessionTokenIn(CookieMapOf(["rf="])) == None
  {
    assert "rf" + "=" == "rf=";
    EmptyTokenIsNone("rf");
  }

  /** The guard and `getSessionToken` can disagree: `rf=` passes the guard yet yields no token. */
  lemma GuardPassesWithoutToken()
    ensures HasRefreshToken("rf=") && SessionTokenIn(CookieMapOf(Split("rf=", ';'))) == None
  {
    EmptyRfIsPresent();
    SingleItemGuard("rf=");
    EmptyRfHasNoToken();
  }

  /** `rf =x` has no whitespace to trim at either end. */
  lemma SpacedCookieIsTrimmed()
    ensures Trim("rf =x") == "rf =x"
  {
    TrimOfWord("rf =x");
  }

  /** The name `rf ` trims to `rf`. */
  lemma SpacedNameTrims()
    ensures Trim("rf ") == "rf"
  {
    assert "rf " == "rf" + " ";
    TrimEndPadded("rf", " ");
    TrimStartOfWord("rf ");
  }

  /** So `rf =x` has key `rf` and value `x`. */
  lemma SpacedCookieItem()
    ensures ItemKey("rf =x") == "rf" && ItemValue("rf =x") == Some("x")
  {
    assert "rf =x" == Join(["rf ", "x"], '=');
    ItemOfParts(["rf ", "x"]);
    SpacedNameTrims();
  }

  /** `rf =x` does not start with `rf=`: its third character is a space. */
  lemma SpacedCookieLacksPrefix()
    ensures !StartsWith("rf =x", "rf=")
  {
    assert "rf =x"[..3][2] == ' ';
  }

  /** The other way round, `rf =x` fails the guard... */
  lemma SpacedKeyFailsGuard()
    ensures !HasRefreshToken("rf =x")
  {
    SingleItemGuard("rf =x");
    SpacedCookieIsTrimmed();
    SpacedCookieLacksPrefix();
  }

  /** ...yet `getSessionToken` trims the key and returns `x`. */
  lemma SpacedKeyGivesToken()
    ensures SessionTokenIn(CookieMapOf(Split("rf =x", ';'))) == Some("x")
  {
    SingleItemGuard("rf =x");
    SpacedCookieItem();
    LaterItemWins(["rf =x"], 0);
  }

  /** The host names counted as local. */
  predicate IsLocalhost(hostname: string) {
    hostname == "localhost" || hostname == "127.0.0.1"
  }

  const MissingTokenMessage := "rf Authentication token is missing. Please sign in again."

  /** What `checkAuth` does to the page. */
  datatype AuthEffect =
    | ErrorToast(message: string)
    | Redirect(href: string)

  /** `checkAuth`. */
  method CheckAuth(cookie: string, hostname: string, authUrl: Option<string>, currentHref: string,
                   encodeUriComponent: string -> string) returns (effects: seq<AuthEffect>)
    ensures HasRefreshToken(cookie) ==> effects == []
    ensures !HasRefreshToken(cookie) && IsLocalhost(hostname) ==> effects == [ErrorToast(MissingTokenMessage)]
    ensures !HasRefreshToken(cookie) && !IsLocalhost(hostname) ==>
      effects == if TruthyString(authUrl) then [Redirect(authUrl.value + encodeUriComponent(currentHref))] else []
    ensures |effects| <= 1
  {
    effects := [];
    var refreshTokenExists := HasRefreshToken(cookie);
    if !refreshTokenExists {
      var isLocalhost := hostname == "localhost" || hostname == "127.0.0.1";
      if isLocalhost {
        effects := [ErrorToast(MissingTokenMessage)];
      } else if TruthyString(authUrl) {
        var currentUrl := encodeUriComponent(currentHref);
        effects := [Redirect(authUrl.value + currentUrl)];
      }
    }
  }
}
