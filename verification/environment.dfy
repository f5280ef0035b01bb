/**
 * The environment classifier: `isMobileDevice` and `isWebView` as predicates
 * over what they read from the host (whether `navigator` and `window` exist,
 * the user-agent string, and `navigator.standalone`). Each regular expression
 * is written out as the set of match positions it searches for.
 */
module Environment {
  import opened Text

  /** `navigator.standalone`: absent, or present with some truthiness. */
  datatype Standalone = Undefined | Defined(truthy: bool)

  /** The host state both classifiers read at call time. */
  datatype Host = Host(hasNavigator: bool, hasWindow: bool, userAgent: string, standalone: Standalone)

  /** What the router needs to know, recomputed from the host on every action. */
  datatype Env = Env(mobile: bool, webView: bool, appleUa: bool)

  /** The alternatives of `/android|iphone|ipad|ipod|opera mini|iemobile|mobile/i`. */
  const MobileTokens: seq<string> := ["android", "iphone", "ipad", "ipod", "opera mini", "iemobile", "mobile"]

  /** The alternatives of `(iPhone|iPod|iPad)` (matched with `/i`). */
  const AppleTokens: seq<string> := ["iphone", "ipod", "ipad"]

  predicate HasMobileToken(ua: string) {
    exists n | 0 <= n < |MobileTokens| :: ContainsCI(ua, MobileTokens[n])
  }

  /** `isMobileDevice`: false without `navigator`, otherwise the token search on the user agent. */
  function IsMobileDevice(h: Host): bool {
    h.hasNavigator && HasMobileToken(h.userAgent)
  }

  /** `(?!.*Safari)` fails at `p`: "safari" starts somewhere on the rest of the line. */
  predicate SafariOnRestOfLine(ua: string, p: int)
    requires 0 <= p <= |ua|
  {
    exists k | p <= k <= |ua| :: NoLineTerminator(ua, p, k) && OccursAtCI(ua, k, "safari")
  }

  /**
   * One way for `/\b(iPhone|iPod|iPad)\b.*AppleWebKit(?!.*Safari)/i` to
   * match: token number `n` at `i` between word boundaries, "AppleWebKit" at
   * `j` on the same line, and no "Safari" later on that line.
   */
  predicate IosWebViewAt(ua: string, i: int, n: int, j: int)
    requires 0 <= n < |AppleTokens|
  {
    var e := i + |AppleTokens[n]|;
    && OccursAtCI(ua, i, AppleTokens[n])
    && WordStartsAt(ua, i) && WordEndsAt(ua, e)
    && e <= j <= |ua| && NoLineTerminator(ua, e, j)
    && OccursAtCI(ua, j, "applewebkit")
    && !SafariOnRestOfLine(ua, j + 11)
  }

  predicate IosWebViewClause(ua: string) {
    exists i, n, j | 0 <= i <= |ua| && 0 <= n < |AppleTokens| && 0 <= j <= |ua| :: IosWebViewAt(ua, i, n, j)
  }

  /** `/\bwv\b/`, case-sensitive, matching at `i`. */
  predicate WvAt(ua: string, i: int) {
    OccursAt(ua, i, "wv") && WordStartsAt(ua, i) && WordEndsAt(ua, i + 2)
  }

  predicate WvToken(ua: string) {
    exists i | 0 <= i <= |ua| :: WvAt(ua, i)
  }

  predicate IsDigitOrDot(c: char) {
    ('0' <= c <= '9') || c == '.'
  }

  /** `/Version\/[\d.]+/i` matching at `i`: one digit or dot after the slash suffices. */
  predicate VersionAt(ua: string, i: int) {
    OccursAtCI(ua, i, "version/") && i + 8 < |ua| && IsDigitOrDot(ua[i + 8])
  }

  /** `/Chrome\/[.0-9]* Mobile/i` matching from `i`, with " Mobile" at `j`. */
  predicate ChromeMobileAt(ua: string, i: int, j: int) {
    && OccursAtCI(ua, i, "chrome/")
    && i + 7 <= j
    && OccursAtCI(ua, j, " mobile")
    && forall k | i + 7 <= k < j :: IsDigitOrDot(ua[k])
  }

  predicate ChromeMobileClause(ua: string) {
    && (exists i | 0 <= i <= |ua| :: VersionAt(ua, i))
    && (exists i, j | 0 <= i <= |ua| && 0 <= j <= |ua| :: ChromeMobileAt(ua, i, j))
    && !ContainsCI(ua, "safari")
  }

  /** `isAndroidWebView`: the `wv` token, the "; wv)" marker, or Chrome Mobile without Safari. */
  predicate AndroidWebViewClause(ua: string) {
    WvToken(ua) || Contains(ua, "; wv)") || ChromeMobileClause(ua)
  }

  /** The first half of `isGenericWebView`: "Mobile" without "Safari". */
  predicate MobileWithoutSafari(ua: string) {
    !ContainsCI(ua, "safari") && ContainsCI(ua, "mobile")
  }

  /** `isWebView`: false without `navigator` or `window`, otherwise any of the clauses. */
  function IsWebView(h: Host): bool {
    && h.hasNavigator && h.hasWindow
    && (|| IosWebViewClause(h.userAgent)
        || AndroidWebViewClause(h.userAgent)
        || MobileWithoutSafari(h.userAgent)
        || h.standalone == Defined(true))
  }

  /** `/iphone|ipad|ipod/i`, the test that picks the Apple form of the SMS URI. */
  predicate HasAppleToken(ua: string) {
    exists n | 0 <= n < |AppleTokens| :: ContainsCI(ua, AppleTokens[n])
  }

  /**
   * The classification the handlers act on. The Apple test is only ever
   * evaluated once `isMobileDevice` has held, so `navigator` exists there.
   */
  function Classify(h: Host): (e: Env)
    ensures !h.hasNavigator ==> !e.mobile && !e.webView && !e.appleUa
    ensures !h.hasWindow ==> !e.webView
    ensures e.appleUa ==> e.mobile
  {
    var apple := h.hasNavigator && HasAppleToken(h.userAgent);
    if apple then AppleTokenIsMobileToken(h.userAgent); Env(IsMobileDevice(h), IsWebView(h), apple)
    else Env(IsMobileDevice(h), IsWebView(h), apple)
  }

  /** Each Apple token is also one of the mobile tokens. */
  lemma AppleTokenIsMobileToken(ua: string)
    requires HasAppleToken(ua)
    ensures HasMobileToken(ua)
  {
    var n :| 0 <= n < |AppleTokens| && ContainsCI(ua, AppleTokens[n]);
    if n == 0 {
      assert ContainsCI(ua, MobileTokens[1]);
    } else if n == 1 {
      assert ContainsCI(ua, MobileTokens[3]);
    } else {
      assert ContainsCI(ua, MobileTokens[2]);
    }
  }

  /** The iOS webview clause needs an Apple token, so it only fires on mobile user agents. */
  lemma IosClauseIsMobile(ua: string)
    requires IosWebViewClause(ua)
    ensures HasMobileToken(ua)
  {
    var i, n, j :| 0 <= i <= |ua| && 0 <= n < |AppleTokens| && 0 <= j <= |ua| && IosWebViewAt(ua, i, n, j);
    assert ContainsCI(ua, AppleTokens[n]);
    AppleTokenIsMobileToken(ua);
  }

  /** " Mobile" after "Chrome/…" contains the "mobile" token. */
  lemma ChromeMobileClauseIsMobile(ua: string)
    requires ChromeMobileClause(ua)
    ensures HasMobileToken(ua)
  {
    var i, j :| 0 <= i <= |ua| && 0 <= j <= |ua| && ChromeMobileAt(ua, i, j);
    assert OccursAtCI(ua, j + 1, "mobile") by {
      forall k | 0 <= k < 6
        ensures FoldAscii(ua[j + 1 + k]) == FoldAscii("mobile"[k])
      {
        assert FoldAscii(ua[j + (k + 1)]) == FoldAscii(" mobile"[k + 1]);
      }
    }
    assert ContainsCI(ua, MobileTokens[6]);
  }

  /** The generic "Mobile without Safari" clause needs the "mobile" token. */
  lemma MobileWithoutSafariIsMobile(ua: string)
    ensures MobileWithoutSafari(ua) ==> HasMobileToken(ua)
  {
    if MobileWithoutSafari(ua) {
      assert ContainsCI(ua, MobileTokens[6]);
    }
  }

  /** The "; wv)" marker always contains a `\bwv\b` match. */
  lemma WvMarkerIsWvToken(ua: string)
    requires Contains(ua, "; wv)")
    ensures WvToken(ua)
  {
    var i :| 0 <= i <= |ua| && OccursAt(ua, i, "; wv)");
    var m := ua[i..i + 5];
    assert m == "; wv)";
    assert ua[i + 1] == m[1] && ua[i + 2] == m[2] && ua[i + 3] == m[3] && ua[i + 4] == m[4];
    assert ua[i + 2..i + 4] == "wv";
    assert WvAt(ua, i + 2);
  }

  /**
   * Every webview clause except the `wv` token and `standalone` needs a mobile
   * token, so once `isMobileDevice` is false, `isWebView` holds exactly when
   * the user agent has the case-sensitive `wv` token or `standalone` is truthy.
   */
  lemma WebViewBranchOnlyByWvOrStandalone(h: Host)
    requires !IsMobileDevice(h)
    ensures IsWebView(h) <==> h.hasNavigator && h.hasWindow && (WvToken(h.userAgent) || h.standalone == Defined(true))
  {
    var ua := h.userAgent;
    if h.hasNavigator {
      if IosWebViewClause(ua) { IosClauseIsMobile(ua); }
      if ChromeMobileClause(ua) { ChromeMobileClauseIsMobile(ua); }
      if Contains(ua, "; wv)") { WvMarkerIsWvToken(ua); }
      MobileWithoutSafariIsMobile(ua);
    }
  }

  /**
   * A user agent with none of the mobile tokens and no `wv` token, on a host
   * whose `standalone` is not truthy, is classified as a plain desktop browser.
   */
  lemma DesktopUserAgent(h: Host)
    requires forall n | 0 <= n < |MobileTokens| :: !ContainsCI(h.userAgent, MobileTokens[n])
    requires !WvToken(h.userAgent) && h.standalone != Defined(true)
    ensures Classify(h) == Env(false, false, false)
  {
    WebViewBranchOnlyByWvOrStandalone(h);
    if h.hasNavigator && HasAppleToken(h.userAgent) {
      AppleTokenIsMobileToken(h.userAgent);
    }
  }

  /**
   * The iPhone case: "iPhone" as a word, "AppleWebKit" later on the same line
   * and no "Safari" anywhere gives a webview verdict, and a mobile one too.
   */
  lemma IPhoneWebKitWithoutSafari(h: Host, i: nat, j: nat)
    requires h.hasNavigator && h.hasWindow
    requires OccursAtCI(h.userAgent, i, "iPhone") && WordStartsAt(h.userAgent, i) && WordEndsAt(h.userAgent, i + 6)
    requires i + 6 <= j && OccursAtCI(h.userAgent, j, "AppleWebKit") && NoLineTerminator(h.userAgent, i + 6, j)
    requires !ContainsCI(h.userAgent, "safari")
    ensures Classify(h).webView && Classify(h).mobile
  {
    var ua := h.userAgent;
    assert OccursAtCI(ua, i, AppleTokens[0]) by {
      forall k | 0 <= k < 6
        ensures FoldAscii(ua[i + k]) == FoldAscii(AppleTokens[0][k])
      {
        assert FoldAscii("iPhone"[k]) == FoldAscii(AppleTokens[0][k]);
      }
    }
    assert OccursAtCI(ua, j, "applewebkit") by {
      forall k | 0 <= k < 11
        ensures FoldAscii(ua[j + k]) == FoldAscii("applewebkit"[k])
      {
        assert FoldAscii("AppleWebKit"[k]) == FoldAscii("applewebkit"[k]);
      }
    }
    assert !SafariOnRestOfLine(ua, j + 11);
    assert IosWebViewAt(ua, i, 0, j);
    IosClauseIsMobile(ua);
  }
}
