/**
 * `shouldOverrideUrlLoading` of the web view's client: web links stay in the view,
 * anything else goes to whichever app handles it (`mailto:`, `tel:`, …). Whether such
 * an app exists is an oracle: `startActivity` returns, or throws.
 */
module UrlRouting {
  import opened Basics

  /** What the override did besides answering. */
  datatype Action = Nothing | LoadInView(url: string) | OpenExternally(url: string)

  /** The answer to the web view (true: the app handled the navigation) and the action taken. */
  datatype Routing = Routing(handled: bool, action: Action)

  /** `startsWith("http://") || startsWith("https://")`, case-sensitive. */
  predicate IsWebUrl(url: string)
  {
    "http://" <= url || "https://" <= url
  }

  /**
   * The decision for the request's URL (None: the request or its URL is null), the
   * web view being present or not, and the external launch succeeding or throwing.
   */
  function ShouldOverrideUrlLoading(url: Option<string>, viewPresent: bool, launches: bool): (r: Routing)
    ensures r.handled <==> url.Some? && (IsWebUrl(url.value) || launches)
    ensures r.action.LoadInView? ==> url.Some? && IsWebUrl(url.value) && r.action.url == url.value
    ensures r.action.OpenExternally? ==> url.Some? && !IsWebUrl(url.value) && r.action.url == url.value
  {
    match url
    case None => Routing(false, Nothing)
    case Some(u) =>
      if IsWebUrl(u) then Routing(true, if viewPresent then LoadInView(u) else Nothing)
      else if launches then Routing(true, OpenExternally(u))
      else Routing(false, Nothing)
  }

  /**
   * Web links never leave the app and never depend on an external handler; every other
   * link is only ever handed to one, and is declined when that fails.
   */
  lemma WebLinksStayInside(u: string, launches: bool)
    ensures IsWebUrl(u) ==> ShouldOverrideUrlLoading(Some(u), true, launches) == Routing(true, LoadInView(u))
    ensures !IsWebUrl(u) ==>
      (ShouldOverrideUrlLoading(Some(u), true, launches)
         == if launches then Routing(true, OpenExternally(u)) else Routing(false, Nothing))
  {
  }

  /** The scheme test is case-sensitive: an upper-case `HTTP://` link is handed to another app. */
  lemma UpperCaseSchemeGoesOutside()
    ensures !IsWebUrl("HTTP://127.0.0.1:8080")
    ensures ShouldOverrideUrlLoading(Some("HTTP://127.0.0.1:8080"), true, false) == Routing(false, Nothing)
  {
    assert "HTTP://127.0.0.1:8080"[0] == 'H';
  }
}
