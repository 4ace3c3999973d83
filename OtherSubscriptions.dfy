/**
 * The "other subscriptions" screen: the default other subscriptions, each
 * shown active when an active subscription has its url, followed by the
 * active subscriptions that match no default ("custom" ones), each section
 * under its own header; and the actions that toggle, add and remove entries
 * through the settings repository.
 */
module OtherSubscriptions {
  import opened Wrappers
  import opened Subscriptions
  import opened SettingsData

  datatype Category = DefaultCategory | CustomCategory

  /**
   * A row of the list. The `layout` of a row is the index it is given
   * (`layoutForIndex` maps the index to a layout; that mapping is not part
   * of this model).
   */
  datatype OtherSubscriptionsItem =
    | HeaderItem(category: Category)
    | DefaultItem(subscription: Subscription, layout: nat, active: bool)
    | CustomItem(subscription: Subscription, layout: nat)

  /** Some default has the url (`defaultSubscriptions.none { … }` negated). */
  predicate HasDefault(defaults: seq<Subscription>, url: string) {
    FindByUrl(defaults, url).Some?
  }

  /** The active subscriptions whose url matches no default, in active order. */
  function CustomSubscriptions(defaults: seq<Subscription>, active: seq<Subscription>): (r: seq<Subscription>)
    ensures forall s :: s in r <==> s in active && !HasDefault(defaults, s.url)
    ensures |r| <= |active|
  {
    if active == [] then []
    else
      var rest := CustomSubscriptions(defaults, active[1..]);
      assert forall s :: s in active <==> s == active[0] || s in active[1..];
      (if HasDefault(defaults, active[0].url) then [] else [active[0]]) + rest
  }

  /** The active subscriptions that a default stands for: the complement of the custom ones. */
  function MatchedSubscriptions(defaults: seq<Subscription>, active: seq<Subscription>): (r: seq<Subscription>)
    ensures forall s :: s in r <==> s in active && HasDefault(defaults, s.url)
  {
    if active == [] then []
    else
      var rest := MatchedSubscriptions(defaults, active[1..]);
      assert forall s :: s in active <==> s == active[0] || s in active[1..];
      (if HasDefault(defaults, active[0].url) then [active[0]] else []) + rest
  }

  /** Every active subscription is custom or matched, exactly once. */
  lemma {:induction false} CustomPartition(defaults: seq<Subscription>, active: seq<Subscription>)
    ensures multiset(CustomSubscriptions(defaults, active)) + multiset(MatchedSubscriptions(defaults, active))
            == multiset(active)
  {
    if active != [] {
      CustomPartition(defaults, active[1..]);
      PartitionStep(defaults, active);
      assert active == [active[0]] + active[1..];
    }
  }

  /** The first active subscription goes to exactly one side. */
  lemma PartitionStep(defaults: seq<Subscription>, active: seq<Subscription>)
    requires active != []
    ensures multiset(CustomSubscriptions(defaults, active)) + multiset(MatchedSubscriptions(defaults, active))
            == multiset([active[0]]) + multiset(CustomSubscriptions(defaults, active[1..]))
               + multiset(MatchedSubscriptions(defaults, active[1..]))
  {
    var h, rest := active[0], active[1..];
    var c, m := CustomSubscriptions(defaults, rest), MatchedSubscriptions(defaults, rest);
    if HasDefault(defaults, h.url) {
      assert CustomSubscriptions(defaults, active) == c;
      assert MatchedSubscriptions(defaults, active) == [h] + m;
    } else {
      assert CustomSubscriptions(defaults, active) == [h] + c;
      assert MatchedSubscriptions(defaults, active) == m;
    }
  }

  lemma {:induction false} CustomSubscriptionsAppend(defaults: seq<Subscription>, a: seq<Subscription>, b: seq<Subscription>)
    ensures CustomSubscriptions(defaults, a + b) == CustomSubscriptions(defaults, a) + CustomSubscriptions(defaults, b)
  {
    if a != [] {
      assert (a + b)[0] == a[0] && (a + b)[1..] == a[1..] + b;
      CustomSubscriptionsAppend(defaults, a[1..], b);
    } else {
      assert a + b == b;
    }
  }

  /** The row for the default at `index`: the active subscription with its url, if any. */
  function DefaultItemFor(defaults: seq<Subscription>, active: seq<Subscription>, index: nat): (r: OtherSubscriptionsItem)
    requires index < |defaults|
    ensures r.DefaultItem? && r.layout == index && r.subscription.url == defaults[index].url
  {
    var found := FindByUrl(active, defaults[index].url);
    DefaultItem(found.GetOr(defaults[index]), index, found.Some?)
  }

  /**
   * A default row is active exactly when an active subscription has the
   * default's url, and then it shows the first such active subscription;
   * otherwise it shows the default itself.
   */
  lemma DefaultItemMeaning(defaults: seq<Subscription>, active: seq<Subscription>, index: nat)
    requires index < |defaults|
    ensures var item := DefaultItemFor(defaults, active, index);
            && item.subscription.url == defaults[index].url
            && (item.active <==> exists j :: 0 <= j < |active| && active[j].url == defaults[index].url)
            && (!item.active ==> item.subscription == defaults[index])
            && (item.active ==> exists j :: 0 <= j < |active| && active[j] == item.subscription
                                  && forall k :: 0 <= k < j ==> active[k].url != defaults[index].url)
  {
  }

  /** The default section: nothing without defaults, else a header and one row per default. */
  function DefaultSection(defaults: seq<Subscription>, active: seq<Subscription>): (r: seq<OtherSubscriptionsItem>)
    ensures defaults == [] ==> r == []
    ensures defaults != [] ==> |r| == |defaults| + 1 && r[0] == HeaderItem(DefaultCategory)
    ensures forall i :: 1 <= i < |r| ==> r[i] == DefaultItemFor(defaults, active, i - 1)
  {
    if defaults == [] then []
    else [HeaderItem(DefaultCategory)] + seq(|defaults|, i requires 0 <= i < |defaults| => DefaultItemFor(defaults, active, i))
  }

  /** The custom section: nothing without custom subscriptions, else a header and one row each. */
  function CustomSection(custom: seq<Subscription>): (r: seq<OtherSubscriptionsItem>)
    ensures custom == [] ==> r == []
    ensures custom != [] ==> |r| == |custom| + 1 && r[0] == HeaderItem(CustomCategory)
    ensures forall i :: 1 <= i < |r| ==> r[i] == CustomItem(custom[i - 1], i - 1)
  {
    if custom == [] then []
    else [HeaderItem(CustomCategory)] + seq(|custom|, i requires 0 <= i < |custom| => CustomItem(custom[i], i))
  }

  /** `defaultItems`: fills the list in one pass over the defaults. */
  method DefaultItems(defaults: seq<Subscription>, active: seq<Subscription>) returns (result: seq<OtherSubscriptionsItem>)
    ensures result == DefaultSection(defaults, active)
  {
    result := [];
    if defaults != [] {
      result := result + [HeaderItem(DefaultCategory)];
      var index := 0;
      while index < |defaults|
        invariant 0 <= index <= |defaults|
        invariant |result| == index + 1 && result[0] == HeaderItem(DefaultCategory)
        invariant forall i :: 1 <= i <= index ==> result[i] == DefaultItemFor(defaults, active, i - 1)
      {
        var activeSubscription := FindByUrl(active, defaults[index].url);
        result := result + [DefaultItem(activeSubscription.GetOr(defaults[index]), index, activeSubscription.Some?)];
        index := index + 1;
      }
    }
  }

  /** `customItems`: fills the list in one pass over the custom subscriptions. */
  method CustomItems(custom: seq<Subscription>) returns (result: seq<OtherSubscriptionsItem>)
    ensures result == CustomSection(custom)
  {
    result := [];
    if custom != [] {
      result := result + [HeaderItem(CustomCategory)];
      var index := 0;
      while index < |custom|
        invariant 0 <= index <= |custom|
        invariant |result| == index + 1 && result[0] == HeaderItem(CustomCategory)
        invariant forall i :: 1 <= i <= index ==> result[i] == CustomItem(custom[i - 1], i - 1)
      {
        result := result + [CustomItem(custom[index], index)];
        index := index + 1;
      }
    }
  }

  /** The whole list `subscriptions` emits for one settings value. */
  function SubscriptionItems(defaults: seq<Subscription>, st: Settings): (r: seq<OtherSubscriptionsItem>)
    ensures var custom := CustomSubscriptions(defaults, st.activeOtherSubscriptions);
            |r| == (if defaults == [] then 0 else |defaults| + 1) + (if custom == [] then 0 else |custom| + 1)
    ensures defaults != [] ==> r[0] == HeaderItem(DefaultCategory)
    ensures r == DefaultSection(defaults, st.activeOtherSubscriptions)
                 + CustomSection(CustomSubscriptions(defaults, st.activeOtherSubscriptions))
  {
    DefaultSection(defaults, st.activeOtherSubscriptions)
    + CustomSection(CustomSubscriptions(defaults, st.activeOtherSubscriptions))
  }

  /** The `subscriptions` mapping: the default section followed by the custom section. */
  method Items(defaults: seq<Subscription>, st: Settings) returns (items: seq<OtherSubscriptionsItem>)
    ensures items == SubscriptionItems(defaults, st)
  {
    var active := st.activeOtherSubscriptions;
    var custom := CustomSubscriptions(defaults, active);
    var defaultRows := DefaultItems(defaults, active);
    var customRows := CustomItems(custom);
    items := defaultRows + customRows;
  }

  /**
   * Every active subscription is on the screen: as the custom row carrying
   * it, or, when a default has its url, through that default's row, which
   * is then active.
   */
  lemma ActiveSubscriptionShown(defaults: seq<Subscription>, st: Settings, s: Subscription)
    requires s in st.activeOtherSubscriptions
    ensures var items := SubscriptionItems(defaults, st);
            (!HasDefault(defaults, s.url) ==> exists i :: 0 <= i < |items| && items[i].CustomItem? && items[i].subscription == s)
            && (HasDefault(defaults, s.url) ==>
                  exists i :: 0 <= i < |items| && items[i].DefaultItem? && items[i].active && items[i].subscription.url == s.url)
  {
    var active := st.activeOtherSubscriptions;
    var d := DefaultSection(defaults, active);
    var custom := CustomSubscriptions(defaults, active);
    var c := CustomSection(custom);
    var items := d + c;
    assert items == SubscriptionItems(defaults, st);
    if HasDefault(defaults, s.url) {
      var k :| 0 <= k < |defaults| && defaults[k] == FindByUrl(defaults, s.url).value && defaults[k].url == s.url;
      var j :| 0 <= j < |active| && active[j] == s;
      assert active[j].url == defaults[k].url;
      DefaultItemMeaning(defaults, active, k);
      assert items[k + 1] == d[k + 1] == DefaultItemFor(defaults, active, k);
      assert items[k + 1].DefaultItem? && items[k + 1].active && items[k + 1].subscription.url == s.url;
    } else {
      assert s in custom;
      var j :| 0 <= j < |custom| && custom[j] == s;
      assert c[j + 1] == CustomItem(s, j);
      assert items[|d| + j + 1] == c[j + 1];
      assert items[|d| + j + 1].CustomItem? && items[|d| + j + 1].subscription == s;
    }
  }

  /** `toggleActiveSubscription` on the settings: remove an active row's subscription, add an inactive one. */
  function Toggle(st: Settings, item: OtherSubscriptionsItem): (r: Settings)
    requires item.DefaultItem?
    ensures r.activeOtherSubscriptions
            == if item.active then WithoutUrl(st.activeOtherSubscriptions, item.subscription.url)
               else AddSubscription(st.activeOtherSubscriptions, item.subscription)
    ensures item.active ==> FindByUrl(r.activeOtherSubscriptions, item.subscription.url).None?
    ensures !item.active ==> FindByUrl(r.activeOtherSubscriptions, item.subscription.url).Some?
    ensures r.(activeOtherSubscriptions := st.activeOtherSubscriptions) == st
  {
    if item.active then RemoveSubscriptionFrom(st, ActiveOther, item.subscription)
    else AddSubscriptionTo(st, ActiveOther, item.subscription)
  }

  /** Toggling a default row flips whether it is shown active. */
  lemma ToggleFlipsActive(defaults: seq<Subscription>, st: Settings, index: nat)
    requires index < |defaults|
    ensures var item := DefaultItemFor(defaults, st.activeOtherSubscriptions, index);
            DefaultItemFor(defaults, Toggle(st, item).activeOtherSubscriptions, index).active == !item.active
  {
    var item := DefaultItemFor(defaults, st.activeOtherSubscriptions, index);
    DefaultItemMeaning(defaults, st.activeOtherSubscriptions, index);
  }

  /** The subscription `addCustomUrl` adds: the url is also the title, never updated. */
  function CustomSubscription(url: string): (s: Subscription)
    ensures s.url == url && s.title == url && s.lastUpdate == 0
  {
    Subscription(url, url, 0)
  }

  /** A new url that no default has becomes the last custom row. */
  lemma AddCustomUrlAppends(defaults: seq<Subscription>, st: Settings, url: string)
    requires !HasDefault(defaults, url) && FindByUrl(st.activeOtherSubscriptions, url).None?
    ensures var st' := AddSubscriptionTo(st, ActiveOther, CustomSubscription(url));
            CustomSubscriptions(defaults, st'.activeOtherSubscriptions)
            == CustomSubscriptions(defaults, st.activeOtherSubscriptions) + [CustomSubscription(url)]
  {
    CustomSubscriptionsAppend(defaults, st.activeOtherSubscriptions, [CustomSubscription(url)]);
  }

  /** The view model's actions, each one update of the settings store. */
  class OtherSubscriptionsViewModel {
    const settingsRepository: DataStoreSettingsRepository

    constructor (settingsRepository: DataStoreSettingsRepository)
      ensures this.settingsRepository == settingsRepository
    {
      this.settingsRepository := settingsRepository;
    }

    method ToggleActiveSubscription(defaultItem: OtherSubscriptionsItem)
      requires defaultItem.DefaultItem?
      modifies settingsRepository
      ensures settingsRepository.settings == Toggle(old(settingsRepository.settings), defaultItem)
    {
      if defaultItem.active {
        settingsRepository.RemoveActiveOtherSubscription(defaultItem.subscription);
      } else {
        settingsRepository.AddActiveOtherSubscription(defaultItem.subscription);
      }
    }

    method AddCustomUrl(url: string)
      modifies settingsRepository
      ensures settingsRepository.settings
              == AddSubscriptionTo(old(settingsRepository.settings), ActiveOther, CustomSubscription(url))
    {
      var subscription := Subscription(url, url, 0);
      settingsRepository.AddActiveOtherSubscription(subscription);
    }

    method RemoveSubscription(customItem: OtherSubscriptionsItem)
      requires customItem.CustomItem?
      modifies settingsRepository
      ensures settingsRepository.settings
              == RemoveSubscriptionFrom(old(settingsRepository.settings), ActiveOther, customItem.subscription)
    {
      settingsRepository.RemoveActiveOtherSubscription(customItem.subscription);
    }
  }
}
