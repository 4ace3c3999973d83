/**
 * The persisted user settings and the updates the settings repository
 * applies to them: two switches, the update policy, the allowed and blocked
 * domain lists and the active primary and other subscription lists. Each
 * repository method replaces the single stored settings value with a
 * function of the old one.
 */
module SettingsData {
  import opened Wrappers
  import opened Subscriptions

  datatype UpdateConfig = WifiOnly | Always

  datatype Settings = Settings(
    adblockEnabled: bool,
    acceptableAdsEnabled: bool,
    updateConfig: UpdateConfig,
    allowedDomains: seq<string>,
    blockedDomains: seq<string>,
    activePrimarySubscriptions: seq<Subscription>,
    activeOtherSubscriptions: seq<Subscription>)

  /** The two domain lists. */
  datatype DomainList = AllowedDomains | BlockedDomains

  /** The two subscription lists. */
  datatype SubscriptionList = ActivePrimary | ActiveOther

  predicate Distinct<T(==)>(xs: seq<T>) {
    forall i, j :: 0 <= i < j < |xs| ==> xs[i] != xs[j]
  }

  /** No two entries share a url. */
  predicate UniqueUrls(subs: seq<Subscription>) {
    forall i, j :: 0 <= i < j < |subs| ==> subs[i].url != subs[j].url
  }

  /* ---- Domain lists ---- */

  /** `filter { it != domain }`. */
  function RemoveAll(xs: seq<string>, x: string): (r: seq<string>)
    ensures multiset(r) == multiset(xs)[x := 0]
    ensures forall y :: y in r <==> y in xs && y != x
    ensures |r| <= |xs|
  {
    if xs == [] then []
    else
      var rest := RemoveAll(xs[1..], x);
      assert xs == [xs[0]] + xs[1..];
      (if xs[0] == x then [] else [xs[0]]) + rest
  }

  /** Filtering commutes with concatenation, so the kept entries stay in their order. */
  lemma {:induction false} RemoveAllAppend(a: seq<string>, b: seq<string>, x: string)
    ensures RemoveAll(a + b, x) == RemoveAll(a, x) + RemoveAll(b, x)
  {
    if a != [] {
      assert (a + b)[0] == a[0] && (a + b)[1..] == a[1..] + b;
      RemoveAllAppend(a[1..], b, x);
    } else {
      assert a + b == b;
    }
  }

  /** Filtering out an absent entry keeps the list as it is. */
  lemma {:induction false} RemoveAllAbsent(xs: seq<string>, x: string)
    requires x !in xs
    ensures RemoveAll(xs, x) == xs
  {
    if xs != [] {
      RemoveAllAbsent(xs[1..], x);
      assert xs == [xs[0]] + xs[1..];
    }
  }

  /** `addAllowedDomain` / `addBlockedDomain` on one list: append unless present. */
  function AddDomain(domains: seq<string>, domain: string): (r: seq<string>)
    ensures domain in r && forall y :: y in r <==> y in domains || y == domain
    ensures |r| == if domain in domains then |domains| else |domains| + 1
    ensures r[..|domains|] == domains
  {
    if domain in domains then domains else domains + [domain]
  }

  /** `removeAllowedDomain` / `removeBlockedDomain` on one list: filter when present. */
  function RemoveDomain(domains: seq<string>, domain: string): (r: seq<string>)
    ensures domain !in r && forall y :: y in r <==> y in domains && y != domain
    ensures multiset(r) == multiset(domains)[domain := 0]
  {
    if domain in domains then RemoveAll(domains, domain) else domains
  }

  /** The `contains` guard never changes the result: removal is the filter. */
  lemma RemoveDomainIsFilter(domains: seq<string>, domain: string)
    ensures RemoveDomain(domains, domain) == RemoveAll(domains, domain)
  {
    if domain !in domains {
      RemoveAllAbsent(domains, domain);
    }
  }

  lemma AddDomainIdempotent(domains: seq<string>, domain: string)
    ensures AddDomain(AddDomain(domains, domain), domain) == AddDomain(domains, domain)
  {
  }

  lemma RemoveDomainIdempotent(domains: seq<string>, domain: string)
    ensures RemoveDomain(RemoveDomain(domains, domain), domain) == RemoveDomain(domains, domain)
  {
  }

  /** A list without duplicates keeps none after an add. */
  lemma AddDomainKeepsDistinct(domains: seq<string>, domain: string)
    requires Distinct(domains)
    ensures Distinct(AddDomain(domains, domain))
  {
  }

  /** Removing a domain just added restores the list. */
  lemma RemoveAfterAddDomain(domains: seq<string>, domain: string)
    requires domain !in domains
    ensures RemoveDomain(AddDomain(domains, domain), domain) == domains
  {
    RemoveAllAppend(domains, [domain], domain);
    RemoveAllAbsent(domains, domain);
  }

  /** Adding a domain just removed moves it to the end. */
  lemma AddAfterRemoveDomain(domains: seq<string>, domain: string)
    ensures AddDomain(RemoveDomain(domains, domain), domain) == RemoveAll(domains, domain) + [domain]
  {
    RemoveDomainIsFilter(domains, domain);
  }

  /* ---- Subscription lists ---- */

  /** `find { it.url == url }`: the first entry with the url. */
  function FindByUrl(subs: seq<Subscription>, url: string): (r: Option<Subscription>)
    ensures r.None? <==> forall i :: 0 <= i < |subs| ==> subs[i].url != url
    ensures r.Some? ==> exists i :: 0 <= i < |subs| && subs[i] == r.value && r.value.url == url
                          && forall j :: 0 <= j < i ==> subs[j].url != url
  {
    if subs == [] then None
    else if subs[0].url == url then Some(subs[0])
    else
      var r := FindByUrl(subs[1..], url);
      assert forall i :: 0 < i < |subs| ==> subs[i] == subs[1..][i - 1];
      assert r.Some? ==> exists i :: 0 < i < |subs| && subs[i] == r.value && r.value.url == url
                          && forall j :: 0 <= j < i ==> subs[j].url != url;
      r
  }

  /** `filter { it.url != url }`. */
  function WithoutUrl(subs: seq<Subscription>, url: string): (r: seq<Subscription>)
    ensures forall s :: s in r <==> s in subs && s.url != url
    ensures |r| <= |subs|
  {
    if subs == [] then []
    else
      var rest := WithoutUrl(subs[1..], url);
      assert forall s :: s in subs <==> s == subs[0] || s in subs[1..];
      (if subs[0].url == url then [] else [subs[0]]) + rest
  }

  /** Every entry with another url keeps its multiplicity; those with the url are gone. */
  lemma {:induction false} WithoutUrlMultiplicity(subs: seq<Subscription>, url: string)
    ensures forall s :: multiset(WithoutUrl(subs, url))[s] == if s.url == url then 0 else multiset(subs)[s]
  {
    if subs != [] {
      WithoutUrlMultiplicity(subs[1..], url);
      assert subs == [subs[0]] + subs[1..];
      assert multiset(subs) == multiset([subs[0]]) + multiset(subs[1..]);
    }
  }

  lemma {:induction false} WithoutUrlAppend(a: seq<Subscription>, b: seq<Subscription>, url: string)
    ensures WithoutUrl(a + b, url) == WithoutUrl(a, url) + WithoutUrl(b, url)
  {
    if a != [] {
      assert (a + b)[0] == a[0] && (a + b)[1..] == a[1..] + b;
      WithoutUrlAppend(a[1..], b, url);
    } else {
      assert a + b == b;
    }
  }

  lemma {:induction false} WithoutUrlAbsent(subs: seq<Subscription>, url: string)
    requires forall i :: 0 <= i < |subs| ==> subs[i].url != url
    ensures WithoutUrl(subs, url) == subs
  {
    if subs != [] {
      WithoutUrlAbsent(subs[1..], url);
      assert subs == [subs[0]] + subs[1..];
    }
  }

  /**
   * `addActive…Subscription` on one list: membership is by url only, so an
   * entry with the same url blocks the add whatever its title.
   */
  function AddSubscription(subs: seq<Subscription>, sub: Subscription): (r: seq<Subscription>)
    ensures FindByUrl(subs, sub.url).Some? ==> r == subs
    ensures FindByUrl(subs, sub.url).None? ==> |r| == |subs| + 1 && r[..|subs|] == subs && r[|subs|] == sub
    ensures FindByUrl(r, sub.url).Some?
  {
    if FindByUrl(subs, sub.url).Some? then subs
    else
      var r := subs + [sub];
      assert r[|subs|].url == sub.url;
      r
  }

  /** `removeActive…Subscription` on one list: every entry with the url goes. */
  function RemoveSubscription(subs: seq<Subscription>, sub: Subscription): (r: seq<Subscription>)
    ensures forall s :: s in r <==> s in subs && s.url != sub.url
    ensures FindByUrl(r, sub.url).None?
  {
    if FindByUrl(subs, sub.url).Some? then WithoutUrl(subs, sub.url)
    else
      WithoutUrlAbsent(subs, sub.url);
      subs
  }

  /** The `find` guard never changes the result: removal is the filter. */
  lemma RemoveSubscriptionIsFilter(subs: seq<Subscription>, sub: Subscription)
    ensures RemoveSubscription(subs, sub) == WithoutUrl(subs, sub.url)
  {
    if FindByUrl(subs, sub.url).None? {
      WithoutUrlAbsent(subs, sub.url);
    }
  }

  /** Adding keeps the urls of a list unique. */
  lemma AddSubscriptionKeepsUniqueUrls(subs: seq<Subscription>, sub: Subscription)
    requires UniqueUrls(subs)
    ensures UniqueUrls(AddSubscription(subs, sub))
  {
  }

  /** Removing a subscription just added, under any title, restores the list. */
  lemma RemoveAfterAddSubscription(subs: seq<Subscription>, sub: Subscription, other: Subscription)
    requires FindByUrl(subs, sub.url).None? && other.url == sub.url
    ensures RemoveSubscription(AddSubscription(subs, sub), other) == subs
  {
    WithoutUrlAppend(subs, [sub], sub.url);
    WithoutUrlAbsent(subs, sub.url);
  }

  /* ---- Whole settings ---- */

  function Domains(st: Settings, which: DomainList): seq<string> {
    match which
    case AllowedDomains => st.allowedDomains
    case BlockedDomains => st.blockedDomains
  }

  /**
   * `clear…Domains().addAll…Domains(domains)`: the chosen list replaced
   * wholesale; the other list and every other field are left as they were.
   */
  function SetDomains(st: Settings, which: DomainList, domains: seq<string>): (r: Settings)
    ensures Domains(r, which) == domains
    ensures forall other :: other != which ==> Domains(r, other) == Domains(st, other)
    ensures r.(allowedDomains := st.allowedDomains, blockedDomains := st.blockedDomains) == st
  {
    match which
    case AllowedDomains => st.(allowedDomains := domains)
    case BlockedDomains => st.(blockedDomains := domains)
  }

  /** An add on one domain list: the domain is then listed; nothing else changes. */
  function AddDomainTo(st: Settings, which: DomainList, domain: string): (r: Settings)
    ensures Domains(r, which) == AddDomain(Domains(st, which), domain)
    ensures forall y :: y in Domains(r, which) <==> y in Domains(st, which) || y == domain
    ensures Domains(st, which) <= Domains(r, which)
    ensures forall other :: other != which ==> Domains(r, other) == Domains(st, other)
    ensures r.(allowedDomains := st.allowedDomains, blockedDomains := st.blockedDomains) == st
  {
    SetDomains(st, which, AddDomain(Domains(st, which), domain))
  }

  /** A remove on one domain list: every copy of the domain goes; nothing else changes. */
  function RemoveDomainFrom(st: Settings, which: DomainList, domain: string): (r: Settings)
    ensures Domains(r, which) == RemoveAll(Domains(st, which), domain)
    ensures forall y :: y in Domains(r, which) <==> y in Domains(st, which) && y != domain
    ensures multiset(Domains(r, which)) == multiset(Domains(st, which))[domain := 0]
    ensures forall other :: other != which ==> Domains(r, other) == Domains(st, other)
    ensures r.(allowedDomains := st.allowedDomains, blockedDomains := st.blockedDomains) == st
  {
    RemoveDomainIsFilter(Domains(st, which), domain);
    SetDomains(st, which, RemoveDomain(Domains(st, which), domain))
  }

  function ActiveSubscriptions(st: Settings, which: SubscriptionList): seq<Subscription> {
    match which
    case ActivePrimary => st.activePrimarySubscriptions
    case ActiveOther => st.activeOtherSubscriptions
  }

  /** The chosen subscription list replaced wholesale; nothing else changes. */
  function SetSubscriptions(st: Settings, which: SubscriptionList, subs: seq<Subscription>): (r: Settings)
    ensures ActiveSubscriptions(r, which) == subs
    ensures forall other :: other != which ==> ActiveSubscriptions(r, other) == ActiveSubscriptions(st, other)
    ensures r.(activePrimarySubscriptions := st.activePrimarySubscriptions,
               activeOtherSubscriptions := st.activeOtherSubscriptions) == st
  {
    match which
    case ActivePrimary => st.(activePrimarySubscriptions := subs)
    case ActiveOther => st.(activeOtherSubscriptions := subs)
  }

  /** An add on one subscription list: the url is then listed; nothing else changes. */
  function AddSubscriptionTo(st: Settings, which: SubscriptionList, sub: Subscription): (r: Settings)
    ensures ActiveSubscriptions(r, which) == AddSubscription(ActiveSubscriptions(st, which), sub)
    ensures FindByUrl(ActiveSubscriptions(r, which), sub.url).Some?
    ensures ActiveSubscriptions(st, which) <= ActiveSubscriptions(r, which)
    ensures |ActiveSubscriptions(r, which)| <= |ActiveSubscriptions(st, which)| + 1
    ensures forall other :: other != which ==> ActiveSubscriptions(r, other) == ActiveSubscriptions(st, other)
    ensures r.(activePrimarySubscriptions := st.activePrimarySubscriptions,
               activeOtherSubscriptions := st.activeOtherSubscriptions) == st
  {
    SetSubscriptions(st, which, AddSubscription(ActiveSubscriptions(st, which), sub))
  }

  /** A remove on one subscription list: it is filtered by url; nothing else changes. */
  function RemoveSubscriptionFrom(st: Settings, which: SubscriptionList, sub: Subscription): (r: Settings)
    ensures ActiveSubscriptions(r, which) == WithoutUrl(ActiveSubscriptions(st, which), sub.url)
    ensures FindByUrl(ActiveSubscriptions(r, which), sub.url).None?
    ensures forall other :: other != which ==> ActiveSubscriptions(r, other) == ActiveSubscriptions(st, other)
    ensures r.(activePrimarySubscriptions := st.activePrimarySubscriptions,
               activeOtherSubscriptions := st.activeOtherSubscriptions) == st
  {
    RemoveSubscriptionIsFilter(ActiveSubscriptions(st, which), sub);
    SetSubscriptions(st, which, RemoveSubscription(ActiveSubscriptions(st, which), sub))
  }

  /** An update to one domain list leaves the other list and every other field as they were. */
  lemma DomainUpdateLeavesOthers(st: Settings, which: DomainList, domain: string)
    ensures var other := if which == AllowedDomains then BlockedDomains else AllowedDomains;
            && Domains(AddDomainTo(st, which, domain), other) == Domains(st, other)
            && Domains(RemoveDomainFrom(st, which, domain), other) == Domains(st, other)
            && AddDomainTo(st, which, domain).activePrimarySubscriptions == st.activePrimarySubscriptions
            && AddDomainTo(st, which, domain).activeOtherSubscriptions == st.activeOtherSubscriptions
            && RemoveDomainFrom(st, which, domain).activePrimarySubscriptions == st.activePrimarySubscriptions
            && RemoveDomainFrom(st, which, domain).activeOtherSubscriptions == st.activeOtherSubscriptions
  {
  }

  /** `setAdblockEnabled`. */
  function WithAdblockEnabled(st: Settings, enabled: bool): (r: Settings)
    ensures r.adblockEnabled == enabled && r.(adblockEnabled := st.adblockEnabled) == st
  {
    st.(adblockEnabled := enabled)
  }

  /** `setAcceptableAdsEnabled`. */
  function WithAcceptableAdsEnabled(st: Settings, enabled: bool): (r: Settings)
    ensures r.acceptableAdsEnabled == enabled && r.(acceptableAdsEnabled := st.acceptableAdsEnabled) == st
  {
    st.(acceptableAdsEnabled := enabled)
  }

  /** `setUpdateConfig`. */
  function WithUpdateConfig(st: Settings, config: UpdateConfig): (r: Settings)
    ensures r.updateConfig == config && r.(updateConfig := st.updateConfig) == st
  {
    st.(updateConfig := config)
  }

  /**
   * The settings store. Every method replaces the stored value with a
   * function of the old one in a single step.
   */
  class DataStoreSettingsRepository {
    var settings: Settings

    constructor (initial: Settings)
      ensures settings == initial
    {
      settings := initial;
    }

    method SetAdblockEnabled(enabled: bool)
      modifies this
      ensures settings == WithAdblockEnabled(old(settings), enabled)
    {
      settings := WithAdblockEnabled(settings, enabled);
    }

    method SetAcceptableAdsEnabled(enabled: bool)
      modifies this
      ensures settings == WithAcceptableAdsEnabled(old(settings), enabled)
    {
      settings := WithAcceptableAdsEnabled(settings, enabled);
    }

    method SetUpdateConfig(config: UpdateConfig)
      modifies this
      ensures settings == WithUpdateConfig(old(settings), config)
    {
      settings := WithUpdateConfig(settings, config);
    }

    method AddAllowedDomain(domain: string)
      modifies this
      ensures settings == AddDomainTo(old(settings), AllowedDomains, domain)
    {
      settings := AddDomainTo(settings, AllowedDomains, domain);
    }

    method RemoveAllowedDomain(domain: string)
      modifies this
      ensures settings == RemoveDomainFrom(old(settings), AllowedDomains, domain)
    {
      settings := RemoveDomainFrom(settings, AllowedDomains, domain);
    }

    method SetAllowedDomains(domains: seq<string>)
      modifies this
      ensures settings == SetDomains(old(settings), AllowedDomains, domains)
    {
      settings := SetDomains(settings, AllowedDomains, domains);
    }

    method AddBlockedDomain(domain: string)
      modifies this
      ensures settings == AddDomainTo(old(settings), BlockedDomains, domain)
    {
      settings := AddDomainTo(settings, BlockedDomains, domain);
    }

    method RemoveBlockedDomain(domain: string)
      modifies this
      ensures settings == RemoveDomainFrom(old(settings), BlockedDomains, domain)
    {
      settings := RemoveDomainFrom(settings, BlockedDomains, domain);
    }

    method SetBlockedDomains(domains: seq<string>)
      modifies this
      ensures settings == SetDomains(old(settings), BlockedDomains, domains)
    {
      settings := SetDomains(settings, BlockedDomains, domains);
    }

    method AddActivePrimarySubscription(sub: Subscription)
      modifies this
      ensures settings == AddSubscriptionTo(old(settings), ActivePrimary, sub)
    {
      settings := AddSubscriptionTo(settings, ActivePrimary, sub);
    }

    method RemoveActivePrimarySubscription(sub: Subscription)
      modifies this
      ensures settings == RemoveSubscriptionFrom(old(settings), ActivePrimary, sub)
    {
      settings := RemoveSubscriptionFrom(settings, ActivePrimary, sub);
    }

    method SetActivePrimarySubscriptions(subs: seq<Subscription>)
      modifies this
      ensures settings == SetSubscriptions(old(settings), ActivePrimary, subs)
    {
      settings := SetSubscriptions(settings, ActivePrimary, subs);
    }

    method AddActiveOtherSubscription(sub: Subscription)
      modifies this
      ensures settings == AddSubscriptionTo(old(settings), ActiveOther, sub)
    {
      settings := AddSubscriptionTo(settings, ActiveOther, sub);
    }

    method RemoveActiveOtherSubscription(sub: Subscription)
      modifies this
      ensures settings == RemoveSubscriptionFrom(old(settings), ActiveOther, sub)
    {
      settings := RemoveSubscriptionFrom(settings, ActiveOther, sub);
    }

    method SetActiveOtherSubscriptions(subs: seq<Subscription>)
      modifies this
      ensures settings == SetSubscriptions(old(settings), ActiveOther, subs)
    {
      settings := SetSubscriptions(settings, ActiveOther, subs);
    }
  }
}
