/**
 * The dispatch router behind the three contact actions. The host is an
 * oracle: a new-window open reports whether a window came back, and a
 * current-tab navigation always happens. Each handler is a pure function
 * from the classified environment, the action and that report to the list
 * of host calls it makes, in order.
 */
module Dispatch {
  import opened Wrappers
  import opened Environment
  import opened UriEncoding
  import opened UriSyntax
  import opened UriCompose

  /** `window.open(url, '_blank')` or `window.location.href = url`. */
  datatype HostAction = OpenNewWindow(url: string) | NavigateCurrent(url: string)

  /** The delivery strategies, in the order they are tried. */
  datatype Strategy = NativeSameTab | WebmailNewWindow | MailClientWithFallback

  /** The three user actions; a form submission carries the field values. */
  datatype Intent = StartProject | ScheduleCall | SubmitForm(name: string, email: string, message: string)

  /** The page's fixed contact details and message texts. */
  datatype Site = Site(
    ownerEmail: string,
    projectSubject: string,
    projectBody: string,
    callNumber: string,
    callMessage: string,
    smsNumber: string,
    formSubject: string)

  /** The values the contact section ships with; WhatsApp wants the international number without `+`. */
  const ContactSite := Site(
    "vishalgupta66666@gmail.com",
    "Project Quotation Request",
    "Hi Vishal,\n\nI would like to get a quotation for my project. Please let me know how we can proceed further.\n\nLooking forward to your response!\n\nBest regards,",
    "916388794311",
    "Hi Vishal,\n\nI hope you're doing well. I would like to schedule a call with you to discuss some opportunities. Please let me know your availability for a call at your earliest convenience.\n\nLooking forward to connecting!\n\nBest regards,",
    "916388794311",
    "Contact Form Submission")

  /**
   * The address and the numbers are written unescaped in front of a query,
   * so none of them may hold the character that starts it (`?`), nor, for
   * the SMS number, the one Apple's form uses (`&`).
   */
  predicate WellFormed(site: Site) {
    && '?' !in site.ownerEmail
    && '?' !in site.callNumber
    && '?' !in site.smsNumber && '&' !in site.smsNumber
  }

  lemma ContactSiteWellFormed()
    ensures WellFormed(ContactSite)
  {
    PlainAddress();
    PlainNumber();
  }

  lemma PlainAddress()
    ensures '?' !in "vishalgupta66666@gmail.com"
  {
  }

  lemma PlainNumber()
    ensures '?' !in "916388794311" && '&' !in "916388794311"
  {
  }

  /** The text a form submission sends. */
  function Details(name: string, email: string, message: string): string {
    "Name: " + name + "\nEmail: " + email + "\nMessage: " + message
  }

  /** Mobile first, then webview, then desktop. */
  function ChooseStrategy(e: Env): Strategy {
    if e.mobile then NativeSameTab
    else if e.webView then WebmailNewWindow
    else MailClientWithFallback
  }

  /**
   * `openMailClient`: a new-window open first, then a same-tab navigation
   * to the identical URL only when the host returned no window.
   */
  function OpenMailClient(url: string, popupOpened: bool): (acts: seq<HostAction>)
    ensures 1 <= |acts| <= 2
    ensures acts[0] == OpenNewWindow(url)
    ensures |acts| == 2 <==> !popupOpened
    ensures |acts| == 2 ==> acts[1] == NavigateCurrent(url)
  {
    [OpenNewWindow(url)] + (if popupOpened then [] else [NavigateCurrent(url)])
  }

  /** `openGmailCompose`: one new-window open of the compose link; its outcome is not looked at. */
  function OpenGmailCompose(to: string, subject: string, body: string): (acts: seq<HostAction>)
    ensures |acts| == 1 && acts[0].OpenNewWindow?
    ensures ReadGmailCompose(acts[0].url) == Some(GmailComposeParams(to, subject, body))
  {
    GmailComposeRoundTrip(to, subject, body);
    [OpenNewWindow(GmailComposeUrl(to, subject, body))]
  }

  /** The `mailto:` header fields a message with this subject and body carries. */
  function MailFields(subject: string, body: string): seq<(string, string)> {
    [("subject", subject), ("body", body)]
  }

  /**
   * The strategy chain both mail-sending handlers follow: `native` in the
   * current tab on mobile, Gmail compose in a new window in a webview, and
   * the `mailto:` URI through `openMailClient` on desktop.
   */
  function Deliver(e: Env, native: string, to: string, subject: string, body: string, popupOpened: bool)
    : (acts: seq<HostAction>)
    requires '?' !in to
    ensures 1 <= |acts| <= 2
    ensures e.mobile ==> acts == [NavigateCurrent(native)]
    ensures !e.mobile && e.webView ==>
      |acts| == 1 && acts[0].OpenNewWindow?
      && ReadGmailCompose(acts[0].url) == Some(GmailComposeParams(to, subject, body))
    ensures !e.mobile && !e.webView ==>
      && acts[0].OpenNewWindow?
      && ReadMailto(acts[0].url) == Some((to, MailFields(subject, body)))
      && (|acts| == 2 <==> !popupOpened)
      && (|acts| == 2 ==> acts[1] == NavigateCurrent(acts[0].url))
  {
    match ChooseStrategy(e)
    case NativeSameTab => [NavigateCurrent(native)]
    case WebmailNewWindow => OpenGmailCompose(to, subject, body)
    case MailClientWithFallback =>
      MailtoRoundTrip(to, subject, body);
      OpenMailClient(MailtoUri(to, subject, body), popupOpened)
  }

  /** `handleStartProject`: the quotation request, with its `mailto:` URI as the mobile route. */
  function StartProjectActions(site: Site, e: Env, popupOpened: bool): (acts: seq<HostAction>)
    requires WellFormed(site)
    ensures 1 <= |acts| <= 2
    ensures e.mobile ==>
      |acts| == 1 && acts[0].NavigateCurrent?
      && ReadMailto(acts[0].url) == Some((site.ownerEmail, MailFields(site.projectSubject, site.projectBody)))
    ensures !e.mobile && e.webView ==>
      |acts| == 1 && acts[0].OpenNewWindow?
      && ReadGmailCompose(acts[0].url)
         == Some(GmailComposeParams(site.ownerEmail, site.projectSubject, site.projectBody))
    ensures !e.mobile && !e.webView ==>
      && acts[0].OpenNewWindow?
      && ReadMailto(acts[0].url) == Some((site.ownerEmail, MailFields(site.projectSubject, site.projectBody)))
      && (|acts| == 2 <==> !popupOpened)
      && (|acts| == 2 ==> acts[1] == NavigateCurrent(acts[0].url))
  {
    MailtoRoundTrip(site.ownerEmail, site.projectSubject, site.projectBody);
    Deliver(e, MailtoUri(site.ownerEmail, site.projectSubject, site.projectBody),
            site.ownerEmail, site.projectSubject, site.projectBody, popupOpened)
  }

  /** `handleScheduleCall`: the `wa.me` link in a new window, whatever the environment. */
  function ScheduleCallActions(site: Site): (acts: seq<HostAction>)
    requires WellFormed(site)
    ensures |acts| == 1 && acts[0].OpenNewWindow?
    ensures ReadWhatsApp(acts[0].url) == Some((site.callNumber, [("text", site.callMessage)]))
  {
    WhatsAppRoundTrip(site.callNumber, site.callMessage);
    [OpenNewWindow(WhatsAppUri(site.callNumber, site.callMessage))]
  }

  /** The dispatch part of `handleSubmit`, run once the form has validated; SMS is the mobile route. */
  function SubmitActions(site: Site, e: Env, name: string, email: string, message: string, popupOpened: bool)
    : (acts: seq<HostAction>)
    requires WellFormed(site)
    ensures 1 <= |acts| <= 2
    ensures e.mobile ==>
      |acts| == 1 && acts[0].NavigateCurrent?
      && ReadSms(acts[0].url)
         == Some((site.smsNumber, if e.appleUa then '&' else '?', Details(name, email, message)))
    ensures !e.mobile && e.webView ==>
      |acts| == 1 && acts[0].OpenNewWindow?
      && ReadGmailCompose(acts[0].url)
         == Some(GmailComposeParams(site.ownerEmail, site.formSubject, Details(name, email, message)))
    ensures !e.mobile && !e.webView ==>
      && acts[0].OpenNewWindow?
      && ReadMailto(acts[0].url) == Some((site.ownerEmail, MailFields(site.formSubject, Details(name, email, message))))
      && (|acts| == 2 <==> !popupOpened)
      && (|acts| == 2 ==> acts[1] == NavigateCurrent(acts[0].url))
  {
    var body := Details(name, email, message);
    SmsRoundTrip(site.smsNumber, body, e.appleUa);
    Deliver(e, SmsUri(site.smsNumber, body, e.appleUa), site.ownerEmail, site.formSubject, body, popupOpened)
  }

  /** The host calls one user action makes. */
  function Route(site: Site, e: Env, intent: Intent, popupOpened: bool): seq<HostAction>
    requires WellFormed(site)
  {
    match intent
    case StartProject => StartProjectActions(site, e, popupOpened)
    case ScheduleCall => ScheduleCallActions(site)
    case SubmitForm(name, email, message) => SubmitActions(site, e, name, email, message, popupOpened)
  }

  /** The strategy a log of host calls shows: a same-tab navigation, a Gmail link, or a mail-client open. */
  function ObservedStrategy(acts: seq<HostAction>): Strategy
    requires |acts| > 0
  {
    if acts[0].NavigateCurrent? then NativeSameTab
    else if After(acts[0].url, GmailComposePrefix).Some? then WebmailNewWindow
    else MailClientWithFallback
  }

  /** A `mailto:` URI never starts like a Gmail link. */
  lemma MailtoIsNotGmail(address: string, subject: string, body: string)
    ensures After(MailtoUri(address, subject, body), GmailComposePrefix).None?
  {
    assert MailtoUri(address, subject, body)[0] == 'm';
    assert GmailComposePrefix[0] == 'h';
  }

  /** A Gmail compose link starts with its fixed prefix. */
  lemma GmailStartsWithPrefix(to: string, subject: string, body: string)
    ensures After(GmailComposeUrl(to, subject, body), GmailComposePrefix).Some?
  {
    AfterPrefix(GmailComposePrefix, Join(["to=" + Encode(to), "su=" + Encode(subject), "body=" + Encode(body)], '&'));
  }

  /** The strategy chain shows in its host calls exactly the strategy the priority order picks. */
  lemma DeliverPriority(e: Env, native: string, to: string, subject: string, body: string, popupOpened: bool)
    requires '?' !in to
    ensures var acts := Deliver(e, native, to, subject, body, popupOpened);
      && ObservedStrategy(acts) == ChooseStrategy(e)
      && (e.mobile <==> forall k | 0 <= k < |acts| :: acts[k].NavigateCurrent?)
  {
    var acts := Deliver(e, native, to, subject, body, popupOpened);
    if !e.mobile && e.webView {
      GmailStartsWithPrefix(to, subject, body);
      assert acts == [OpenNewWindow(GmailComposeUrl(to, subject, body))];
    } else if !e.mobile {
      MailtoIsNotGmail(to, subject, body);
      assert acts[0] == OpenNewWindow(MailtoUri(to, subject, body));
    }
  }

  /** The strategy chain consults the host's answer to `window.open` exactly on desktop. */
  lemma DeliverPopup(e: Env, native: string, to: string, subject: string, body: string)
    requires '?' !in to
    ensures Deliver(e, native, to, subject, body, true) != Deliver(e, native, to, subject, body, false)
        <==> ChooseStrategy(e) == MailClientWithFallback
  {
    if ChooseStrategy(e) == MailClientWithFallback {
      assert |Deliver(e, native, to, subject, body, true)| == 1;
      assert |Deliver(e, native, to, subject, body, false)| == 2;
    }
  }

  /** What a mail-sending action hands to the strategy chain: the native URI, the subject and the body. */
  function Request(site: Site, e: Env, intent: Intent): Option<(string, string, string)> {
    match intent
    case StartProject =>
      Some((MailtoUri(site.ownerEmail, site.projectSubject, site.projectBody), site.projectSubject, site.projectBody))
    case ScheduleCall => None
    case SubmitForm(name, email, message) =>
      var body := Details(name, email, message);
      Some((SmsUri(site.smsNumber, body, e.appleUa), site.formSubject, body))
  }

  /** Both mail-sending actions are the strategy chain applied to their request. */
  lemma RouteIsDeliver(site: Site, e: Env, intent: Intent, popupOpened: bool)
    requires WellFormed(site)
    ensures Request(site, e, intent).Some? <==> !intent.ScheduleCall?
    ensures !intent.ScheduleCall? ==>
      var (native, subject, body) := Request(site, e, intent).value;
      Route(site, e, intent, popupOpened) == Deliver(e, native, site.ownerEmail, subject, body, popupOpened)
  {
  }

  /**
   * Every action except "schedule a call" shows exactly the strategy the
   * priority order picks, makes one or two host calls, and calls
   * `window.open` on mobile never.
   */
  lemma RoutePriority(site: Site, e: Env, intent: Intent, popupOpened: bool)
    requires WellFormed(site)
    requires !intent.ScheduleCall?
    ensures var acts := Route(site, e, intent, popupOpened);
      && 1 <= |acts| <= 2
      && ObservedStrategy(acts) == ChooseStrategy(e)
      && (e.mobile <==> forall k | 0 <= k < |acts| :: acts[k].NavigateCurrent?)
  {
    RouteIsDeliver(site, e, intent, popupOpened);
    var (native, subject, body) := Request(site, e, intent).value;
    DeliverPriority(e, native, site.ownerEmail, subject, body, popupOpened);
  }

  /**
   * The host's answer to the new-window open changes the outcome exactly
   * for the desktop mail-client strategy; "schedule a call" never looks at it.
   */
  lemma PopupMattersOnlyForMailClient(site: Site, e: Env, intent: Intent)
    requires WellFormed(site)
    ensures Route(site, e, intent, true) != Route(site, e, intent, false)
        <==> !intent.ScheduleCall? && ChooseStrategy(e) == MailClientWithFallback
  {
    if !intent.ScheduleCall? {
      RouteIsDeliver(site, e, intent, true);
      RouteIsDeliver(site, e, intent, false);
      var (native, subject, body) := Request(site, e, intent).value;
      DeliverPopup(e, native, site.ownerEmail, subject, body);
    }
  }

  /** The handlers as the page runs them: the environment is classified from the host at call time. */
  function Handle(h: Host, intent: Intent, popupOpened: bool): seq<HostAction> {
    ContactSiteWellFormed();
    Route(ContactSite, Classify(h), intent, popupOpened)
  }

  /**
   * The Gmail route is taken exactly when the user agent has no mobile token
   * and either carries the case-sensitive `wv` token or `standalone` is
   * truthy: the iOS, Chrome Mobile and "Mobile without Safari" clauses of
   * `isWebView` never decide the route.
   */
  lemma GmailRouteOnlyByWvOrStandalone(h: Host, intent: Intent, popupOpened: bool)
    requires !intent.ScheduleCall?
    ensures var acts := Handle(h, intent, popupOpened);
      ObservedStrategy(acts) == WebmailNewWindow
      <==> !IsMobileDevice(h) && h.hasNavigator && h.hasWindow
           && (WvToken(h.userAgent) || h.standalone == Defined(true))
  {
    ContactSiteWellFormed();
    RoutePriority(ContactSite, Classify(h), intent, popupOpened);
    if !IsMobileDevice(h) {
      WebViewBranchOnlyByWvOrStandalone(h);
    }
  }
}
