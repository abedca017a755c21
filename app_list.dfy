/** The rows the blacklist and whitelist screens show: a package with the
    label it is listed under, ordered by label, and the header's count of the
    rows whose package is in a given set. */
module AppList {
  import opened Sorting

  /** A row of a settings screen. */
  datatype AppInfo = AppInfo(packageName: string, labelText: string)

  /** `sortedBy { label }`. */
  predicate ByLabel(a: AppInfo, b: AppInfo) {
    LexLe(a.labelText, b.labelText)
  }

  lemma ByLabelPreorder()
    ensures TotalPreorder(ByLabel)
  {
    LexKeyPreorder((x: AppInfo) => x.labelText, ByLabel);
  }

  /** No two rows carry the same package. */
  predicate UniqueKeys(apps: seq<AppInfo>) {
    forall i, j :: 0 <= i < j < |apps| ==> apps[i].packageName != apps[j].packageName
  }

  /** `apps.count { pkgs.contains(it.packageName) }`. */
  function CountIn(apps: seq<AppInfo>, pkgs: set<string>): (n: nat)
    ensures n <= |apps|
    decreases |apps|
  {
    if apps == [] then 0
    else (if apps[0].packageName in pkgs then 1 else 0) + CountIn(apps[1..], pkgs)
  }

  /** How many rows carry package `pkg`. */
  function Rows(apps: seq<AppInfo>, pkg: string): nat
    decreases |apps|
  {
    if apps == [] then 0
    else (if apps[0].packageName == pkg then 1 else 0) + Rows(apps[1..], pkg)
  }

  /** The count is zero exactly when no row's package is in the set, and the
      number of rows exactly when every row's is. */
  lemma {:induction false} CountInExtremes(apps: seq<AppInfo>, pkgs: set<string>)
    ensures CountIn(apps, pkgs) == 0 <==> forall i :: 0 <= i < |apps| ==> apps[i].packageName !in pkgs
    ensures CountIn(apps, pkgs) == |apps| <==> forall i :: 0 <= i < |apps| ==> apps[i].packageName in pkgs
    decreases |apps|
  {
    if apps != [] {
      CountInExtremes(apps[1..], pkgs);
      assert forall i :: 1 <= i < |apps| ==> apps[i] == apps[1..][i - 1];
    }
  }

  /** Adding a package to the set raises the count by the number of its
      rows, and removing it lowers the count by that number when it was
      there; no other row is affected. */
  lemma {:induction false} CountToggle(apps: seq<AppInfo>, pkgs: set<string>, pkg: string)
    ensures CountIn(apps, pkgs + {pkg}) == CountIn(apps, pkgs - {pkg}) + Rows(apps, pkg)
    ensures CountIn(apps, pkgs) == CountIn(apps, pkgs - {pkg}) + (if pkg in pkgs then Rows(apps, pkg) else 0)
    decreases |apps|
  {
    if apps != [] {
      CountToggle(apps[1..], pkgs, pkg);
    }
  }

  /** With no package listed twice, the row of `apps[k]` is its package's
      only row. */
  lemma {:induction false} UniqueRow(apps: seq<AppInfo>, k: nat)
    requires UniqueKeys(apps) && k < |apps|
    ensures Rows(apps, apps[k].packageName) == 1
    decreases |apps|
  {
    var pkg := apps[k].packageName;
    UniqueTail(apps);
    if k == 0 {
      NoRow(apps[1..], pkg);
    } else {
      assert apps[0].packageName != pkg;
      assert apps[1..][k - 1] == apps[k];
      UniqueRow(apps[1..], k - 1);
    }
  }

  /** A package on no row has no rows. */
  lemma {:induction false} NoRow(apps: seq<AppInfo>, pkg: string)
    requires forall i :: 0 <= i < |apps| ==> apps[i].packageName != pkg
    ensures Rows(apps, pkg) == 0
    decreases |apps|
  {
    if apps != [] {
      assert forall i :: 0 <= i < |apps[1..]| ==> apps[1..][i] == apps[i + 1];
      NoRow(apps[1..], pkg);
    }
  }

  /** When every package is listed once, checking an unchecked row raises the
      header by exactly one and unchecking a checked row lowers it by one. */
  lemma ToggleCount(apps: seq<AppInfo>, pkgs: set<string>, k: nat)
    requires UniqueKeys(apps) && k < |apps|
    ensures var pkg := apps[k].packageName;
      CountIn(apps, pkgs + {pkg}) == CountIn(apps, pkgs - {pkg}) + 1 &&
      (pkg !in pkgs ==> CountIn(apps, pkgs + {pkg}) == CountIn(apps, pkgs) + 1) &&
      (pkg in pkgs ==> CountIn(apps, pkgs - {pkg}) == CountIn(apps, pkgs) - 1)
  {
    UniqueRow(apps, k);
    CountToggle(apps, pkgs, apps[k].packageName);
  }

  lemma UniqueTail(s: seq<AppInfo>)
    requires UniqueKeys(s) && s != []
    ensures UniqueKeys(s[1..])
  {
    forall i, j | 0 <= i < j < |s[1..]| ensures s[1..][i].packageName != s[1..][j].packageName {
      assert s[1..][i] == s[i + 1] && s[1..][j] == s[j + 1];
    }
  }

  /** A row whose package no later row carries can head them. */
  lemma UniqueCons(x: AppInfo, t: seq<AppInfo>)
    requires UniqueKeys(t) && forall y :: y in t ==> y.packageName != x.packageName
    ensures UniqueKeys([x] + t)
  {
    var r := [x] + t;
    forall i, j | 0 <= i < j < |r| ensures r[i].packageName != r[j].packageName {
      assert r[j] == t[j - 1];
      if i > 0 {
        assert r[i] == t[i - 1];
      }
    }
  }

  /** Inserting a row whose package no row carries keeps packages unique. */
  lemma {:induction false} InsertUnique(x: AppInfo, s: seq<AppInfo>, le: (AppInfo, AppInfo) -> bool)
    requires UniqueKeys(s) && forall y :: y in s ==> y.packageName != x.packageName
    ensures UniqueKeys(Insert(x, s, le))
    decreases |s|
  {
    if s != [] && !le(x, s[0]) {
      var tail := Insert(x, s[1..], le);
      UniqueTail(s);
      InsertUnique(x, s[1..], le);
      forall y | y in tail ensures y.packageName != s[0].packageName {
        assert y in multiset(tail);
        if y != x {
          assert y in multiset(s[1..]);
          var k :| 0 <= k < |s[1..]| && s[1..][k] == y;
          assert s[k + 1] == y;
        }
      }
      UniqueCons(s[0], tail);
    }
  }

  /** Sorting keeps packages unique. */
  lemma {:induction false} SortUnique(s: seq<AppInfo>, le: (AppInfo, AppInfo) -> bool)
    requires UniqueKeys(s)
    ensures UniqueKeys(Sort(s, le))
    decreases |s|
  {
    if s != [] {
      UniqueTail(s);
      SortUnique(s[1..], le);
      var rest := Sort(s[1..], le);
      forall y | y in rest ensures y.packageName != s[0].packageName {
        assert y in multiset(rest);
        assert y in multiset(s[1..]);
        var k :| 0 <= k < |s[1..]| && s[1..][k] == y;
        assert s[k + 1] == y;
      }
      InsertUnique(s[0], rest, le);
    }
  }
}
