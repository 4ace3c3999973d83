/**
 * The filter-list subscription value and its `randomizedUrl` getter, which
 * sends requests for the EasyList download host to one of ten mirror hosts.
 */
module Subscriptions {
  import opened Text

  /** An immutable subscription descriptor; identity is the url. */
  datatype Subscription = Subscription(url: string, title: string, lastUpdate: int)

  const EasylistDomain: string := "easylist-downloads.adblockplus.org"

  /** The mirror host carrying the one random digit. */
  function MirrorHost(digit: nat): (h: string)
    requires digit <= 9
    ensures |h| == 49 && h[0] == DigitChar(digit)
  {
    [DigitChar(digit)] + ".samsung-internet.filter-list-downloads.eyeo.com"
  }

  /**
   * `String.replace(old, new)`: every non-overlapping occurrence of `pat`,
   * found from left to right, is replaced by `rep`.
   */
  function ReplaceAll(s: string, pat: string, rep: string): string
    requires |pat| > 0
    decreases |s|
  {
    if |s| < |pat| then s
    else if s[..|pat|] == pat then rep + ReplaceAll(s[|pat|..], pat, rep)
    else [s[0]] + ReplaceAll(s[1..], pat, rep)
  }

  /** Text without the pattern comes back unchanged. */
  lemma {:induction false} ReplaceAllAbsent(s: string, pat: string, rep: string)
    requires |pat| > 0
    ensures !ContainsSub(s, pat) ==> ReplaceAll(s, pat, rep) == s
    decreases |s|
  {
    if |s| >= |pat| && !ContainsSub(s, pat) {
      assert !OccursAt(s, pat, 0);
      forall i | 0 <= i <= |s| - 1 - |pat| ensures !OccursAt(s[1..], pat, i) {
        assert !OccursAt(s, pat, i + 1);
        assert s[1..][i..i + |pat|] == s[i + 1..i + 1 + |pat|];
      }
      ReplaceAllAbsent(s[1..], pat, rep);
    }
  }

  /**
   * A prefix in which no occurrence of `pat` starts is copied as it is, and
   * the replacement carries on after it.
   */
  lemma {:induction false} ReplaceAllKeepsPrefix(p: string, t: string, pat: string, rep: string)
    requires |pat| > 0
    requires forall i :: 0 <= i < |p| ==> !OccursAt(p + t, pat, i)
    ensures ReplaceAll(p + t, pat, rep) == p + ReplaceAll(t, pat, rep)
    decreases |p|
  {
    if p == [] {
      assert p + t == t;
    } else {
      var s := p + t;
      assert !OccursAt(s, pat, 0);
      assert s[1..] == p[1..] + t;
      forall i | 0 <= i < |p| - 1 ensures !OccursAt(p[1..] + t, pat, i) {
        assert !OccursAt(s, pat, i + 1);
        if i + |pat| <= |s| - 1 {
          assert (p[1..] + t)[i..i + |pat|] == s[i + 1..i + 1 + |pat|];
        }
      }
      ReplaceAllKeepsPrefix(p[1..], t, pat, rep);
      assert p == [p[0]] + p[1..];
    }
  }

  /**
   * The `randomizedUrl` getter; `digit` is the value of `(0..9).random()`,
   * drawn once per call, so every replacement of that call uses it. No
   * occurrence of the EasyList host survives, and a url without it is
   * returned unchanged.
   */
  function RandomizedUrl(sub: Subscription, digit: nat): (r: string)
    requires digit <= 9
    ensures !ContainsSub(r, EasylistDomain)
    ensures !ContainsSub(sub.url, EasylistDomain) ==> r == sub.url
  {
    var h := MirrorHost(digit);
    assert forall j :: 0 <= j < |EasylistDomain| ==> EasylistDomain[j] != h[0] && EasylistDomain[j] != h[|h| - 1];
    MirrorHostLacksDomain(digit);
    ReplaceAllRemovesAll(sub.url, EasylistDomain, h);
    ReplaceAllAbsent(sub.url, EasylistDomain, h);
    ReplaceAll(sub.url, EasylistDomain, h)
  }

  /**
   * The host in the middle of a url is swapped for the mirror host, and the
   * text around it is kept: the scheme before it and the path after it.
   */
  lemma RandomizedUrlReplacesHost(sub: Subscription, digit: nat, p: string, q: string)
    requires digit <= 9 && sub.url == p + EasylistDomain + q
    requires forall i :: 0 <= i < |p| ==> !OccursAt(sub.url, EasylistDomain, i)
    requires !ContainsSub(q, EasylistDomain)
    ensures RandomizedUrl(sub, digit) == p + MirrorHost(digit) + q
  {
    var h := MirrorHost(digit);
    var t := EasylistDomain + q;
    assert sub.url == p + t;
    ReplaceAllKeepsPrefix(p, t, EasylistDomain, h);
    assert t[..|EasylistDomain|] == EasylistDomain && t[|EasylistDomain|..] == q;
    ReplaceAllAbsent(q, EasylistDomain, h);
    assert ReplaceAll(t, EasylistDomain, h) == h + q;
  }

  /** The EasyList download url is sent to the mirror of the drawn digit. */
  lemma RandomizedUrlExample(digit: nat, title: string, lastUpdate: int)
    requires digit <= 9
    ensures RandomizedUrl(Subscription("https://" + EasylistDomain + "/easylist.txt", title, lastUpdate), digit)
            == "https://" + MirrorHost(digit) + "/easylist.txt"
  {
    var p, q := "https://", "/easylist.txt";
    var sub := Subscription(p + EasylistDomain + q, title, lastUpdate);
    forall i | 0 <= i < |p| ensures !OccursAt(sub.url, EasylistDomain, i) {
      assert sub.url[i] == p[i] != EasylistDomain[0];
      if i <= |sub.url| - |EasylistDomain| {
        assert sub.url[i..i + |EasylistDomain|][0] == sub.url[i];
      }
    }
    assert forall i :: !OccursAt(q, EasylistDomain, i);
    RandomizedUrlReplacesHost(sub, digit, p, q);
  }

  /** A url that starts with the EasyList host gets the mirror of the chosen digit there. */
  lemma RandomizedUrlLeadingHost(sub: Subscription, digit: nat)
    requires digit <= 9 && StartsWith(sub.url, EasylistDomain)
    ensures StartsWith(RandomizedUrl(sub, digit), MirrorHost(digit))
  {
  }

  /**
   * A replacement cannot make the text start with `q` when it did not, as
   * long as `q` does not begin with the first character of `rep`.
   */
  lemma {:induction false} ReplaceAllKeepsNonPrefix(t: string, pat: string, rep: string, q: string)
    requires |pat| > 0 && |rep| > 0 && |q| > 0
    requires forall j :: 0 <= j < |q| ==> q[j] != rep[0]
    requires !StartsWith(t, q)
    ensures !StartsWith(ReplaceAll(t, pat, rep), q)
    decreases |t|
  {
    if |t| >= |pat| && t[..|pat|] != pat && t[0] == q[0] && |q| > 1 {
      var r := ReplaceAll(t[1..], pat, rep);
      assert ReplaceAll(t, pat, rep) == [t[0]] + r;
      if |q| <= |t| {
        assert t[..|q|] == [t[0]] + t[1..][..|q| - 1];
        assert q == [q[0]] + q[1..];
      }
      ReplaceAllKeepsNonPrefix(t[1..], pat, rep, q[1..]);
      if |q| <= |r| + 1 {
        assert ([t[0]] + r)[..|q|] == [t[0]] + r[..|q| - 1];
        assert q == [q[0]] + q[1..];
      }
    }
  }

  /**
   * No occurrence of `pat` survives a replacement by a `rep` that does not
   * contain it and whose first and last characters do not occur in `pat`.
   */
  lemma {:induction false} ReplaceAllRemovesAll(s: string, pat: string, rep: string)
    requires |pat| > 0 && |rep| > 0
    requires forall j :: 0 <= j < |pat| ==> pat[j] != rep[0] && pat[j] != rep[|rep| - 1]
    requires !ContainsSub(rep, pat)
    ensures !ContainsSub(ReplaceAll(s, pat, rep), pat)
    decreases |s|
  {
    var res := ReplaceAll(s, pat, rep);
    if |s| < |pat| {
      assert forall i :: !OccursAt(res, pat, i);
    } else if s[..|pat|] == pat {
      var rest := ReplaceAll(s[|pat|..], pat, rep);
      ReplaceAllRemovesAll(s[|pat|..], pat, rep);
      forall i | 0 <= i <= |res| - |pat| ensures !OccursAt(res, pat, i) {
        if i + |pat| <= |rep| {
          assert !OccursAt(rep, pat, i);
          assert res[i..i + |pat|] == rep[i..i + |pat|];
        } else if i < |rep| {
          assert res[i..i + |pat|][|rep| - 1 - i] == rep[|rep| - 1];
          assert pat[|rep| - 1 - i] != rep[|rep| - 1];
        } else {
          assert !OccursAt(rest, pat, i - |rep|);
          assert rest[i - |rep|..i - |rep| + |pat|] == res[i..i + |pat|];
        }
      }
    } else {
      var rest := ReplaceAll(s[1..], pat, rep);
      ReplaceAllRemovesAll(s[1..], pat, rep);
      forall i | 0 <= i <= |res| - |pat| ensures !OccursAt(res, pat, i) {
        if i == 0 {
          if s[0] == pat[0] && |pat| > 1 {
            assert s[..|pat|] == [s[0]] + s[1..][..|pat| - 1];
            assert pat == [pat[0]] + pat[1..];
            ReplaceAllKeepsNonPrefix(s[1..], pat, rep, pat[1..]);
            assert res[..|pat|] == [s[0]] + rest[..|pat| - 1];
          } else {
            assert res[0] == s[0];
          }
        } else {
          assert !OccursAt(rest, pat, i - 1);
          assert rest[i - 1..i - 1 + |pat|] == res[i..i + |pat|];
        }
      }
    }
  }

  /** The mirror host does not contain the EasyList host name. */
  lemma MirrorHostLacksDomain(digit: nat)
    requires digit <= 9
    ensures !ContainsSub(MirrorHost(digit), EasylistDomain)
  {
    var h := MirrorHost(digit);
    forall i | 0 <= i <= |h| - |EasylistDomain| ensures !OccursAt(h, EasylistDomain, i) {
      // Every window of the host name's length covers the 'f' of "filter",
      // a letter the EasyList host name does not have.
      assert h[19] == 'f';
      assert h[i..i + |EasylistDomain|][19 - i] == 'f';
      assert EasylistDomain[19 - i] != 'f';
    }
  }
}
