/** The decision rules the front end applies on top of the backend: budget
    alerts and the budget bar, reminder due times, catalog-name
    shortening, the displayed list total, joining a family group and the
    purchase suggestions. */
module UiRules {
  import opened Common
  import opened Model
  import opened Ranking

  // ---------------------------------------------------------------------
  // Budget

  /** The budget used when none is set (`monthlyBudget || 5000`). */
  const DefaultBudget: int := 5000

  /** The budget in force: an unset budget reads as 0 and falls back to the
      default. */
  function EffectiveBudget(setting: int): (b: int)
    ensures b != 0
    ensures setting != 0 ==> b == setting
  {
    if setting == 0 then DefaultBudget else setting
  }

  /** Share of the budget spent, in percent. */
  function SpentPercentage(spent: int, setting: int): real
  {
    spent as real / EffectiveBudget(setting) as real * 100.0
  }

  datatype AlertLevel = Exceeded | Warning | WithinBudget

  /** The alert for a month's spend: exceeded from 100% on, a warning from
      80% on, within budget below that. */
  function BudgetAlert(spent: int, setting: int): AlertLevel
  {
    var percentage := SpentPercentage(spent, setting);
    if percentage >= 100.0 then Exceeded
    else if percentage >= 80.0 then Warning
    else WithinBudget
  }

  /** `p * b / 100` compared with a threshold, for a positive budget. */
  lemma PercentageScale(spent: int, b: int)
    requires b > 0
    ensures var p := spent as real / b as real * 100.0;
      && (p >= 100.0 <==> spent >= b)
      && (p >= 80.0 <==> 5 * spent >= 4 * b)
  {
    var q := spent as real / b as real;
    assert q * b as real == spent as real;
    ScaleSign(q - 1.0, b as real);
    assert (q - 1.0) * b as real == spent as real - b as real;
    ScaleSign(q - 0.8, b as real);
    assert (q - 0.8) * b as real == spent as real - 0.8 * b as real;
  }

  /** Scaling by a positive number keeps the sign. */
  lemma ScaleSign(x: real, b: real)
    requires b > 0.0
    ensures x * b >= 0.0 <==> x >= 0.0
  {
    if x >= 0.0 {
      assert x * b >= 0.0;
    } else {
      assert x * b < 0.0;
    }
  }

  /** With a positive budget in force, the alert compares the spend with
      the budget and with four fifths of it, in exact arithmetic. */
  lemma BudgetAlertBands(spent: int, setting: int)
    requires EffectiveBudget(setting) > 0
    ensures var b := EffectiveBudget(setting);
      && (BudgetAlert(spent, setting) == Exceeded <==> spent >= b)
      && (BudgetAlert(spent, setting) == Warning <==> 4 * b <= 5 * spent && spent < b)
      && (BudgetAlert(spent, setting) == WithinBudget <==> 5 * spent < 4 * b)
  {
    PercentageScale(spent, EffectiveBudget(setting));
  }

  /** An unset budget is the default budget. */
  lemma UnsetBudgetIsDefault(spent: int)
    ensures BudgetAlert(spent, 0) == BudgetAlert(spent, DefaultBudget)
  {
  }

  /** Width of the budget bar in percent: the share spent, capped at 100. */
  function BudgetProgress(spent: int, setting: int): (r: real)
    ensures r <= 100.0
  {
    var percentage := SpentPercentage(spent, setting);
    if percentage < 100.0 then percentage else 100.0
  }

  /** With a positive budget the bar is full exactly when the budget is
      used up, and otherwise shows the exact share spent. */
  lemma BudgetProgressFull(spent: int, setting: int)
    requires EffectiveBudget(setting) > 0
    ensures BudgetProgress(spent, setting) == 100.0 <==> spent >= EffectiveBudget(setting)
    ensures spent < EffectiveBudget(setting) ==>
      BudgetProgress(spent, setting) * EffectiveBudget(setting) as real == 100.0 * spent as real
  {
    var b := EffectiveBudget(setting);
    PercentageScale(spent, b);
    var q := spent as real / b as real;
    assert q * b as real == spent as real;
    assert SpentPercentage(spent, setting) == q * 100.0;
  }

  // ---------------------------------------------------------------------
  // Reminders

  /** Days until a reminder of the given frequency is due again. */
  function ReminderDays(frequency: string): int
  {
    if frequency == "weekly" then 7
    else if frequency == "biweekly" then 14
    else if frequency == "monthly" then 30
    else 0
  }

  /** `calculateNextReminder`: a week, two weeks or thirty days after
      `now`, and `now` itself for any other frequency. */
  function NextReminder(frequency: string, now: int): (r: int)
    ensures frequency == "weekly" ==> r == now + 7 * DayMs
    ensures frequency == "biweekly" ==> r == now + 14 * DayMs
    ensures frequency == "monthly" ==> r == now + 30 * DayMs
    ensures frequency !in {"weekly", "biweekly", "monthly"} ==> r == now
  {
    now + ReminderDays(frequency) * DayMs
  }

  /** The due time moves with the clock: the offset depends on the
      frequency alone, is a whole number of days and never negative. */
  lemma NextReminderOffset(frequency: string, now: int, later: int)
    ensures NextReminder(frequency, later) - later == NextReminder(frequency, now) - now
    ensures NextReminder(frequency, now) >= now && (NextReminder(frequency, now) - now) % DayMs == 0
  {
  }

  // ---------------------------------------------------------------------
  // Catalog names

  /** Whether `" ("`, the opener of a unit suffix, starts at position `i`. */
  predicate OpensUnit(name: string, i: int)
    requires 0 <= i && i + 1 < |name|
  {
    name[i] == ' ' && name[i + 1] == '('
  }

  /** `name.split(' (')[0]`: the text before the first `" ("`, or the
      whole name when there is none. */
  function StripUnit(name: string): (r: string)
    ensures |r| <= |name| && r == name[..|r|]
    ensures forall i :: 0 <= i && i + 1 < |r| ==> !OpensUnit(r, i)
    ensures |r| < |name| ==> |r| + 1 < |name| && OpensUnit(name, |r|)
  {
    if |name| < 2 then name
    else if OpensUnit(name, 0) then []
    else
      var rest := StripUnit(name[1..]);
      var r := [name[0]] + rest;
      assert forall i :: 0 < i && i + 1 < |r| ==> OpensUnit(r, i) == OpensUnit(rest, i - 1);
      r
  }

  /** The shortened name is the prefix before the first opener, whatever
      follows it. */
  lemma {:induction false} StripUnitAt(name: string, k: nat)
    requires k + 1 < |name| && OpensUnit(name, k)
    requires forall i :: 0 <= i < k ==> !OpensUnit(name, i)
    ensures StripUnit(name) == name[..k]
  {
    if k > 0 {
      assert !OpensUnit(name, 0);
      assert forall i :: 0 <= i < k - 1 ==> OpensUnit(name[1..], i) == OpensUnit(name, i + 1);
      StripUnitAt(name[1..], k - 1);
      assert name[..k] == [name[0]] + name[1..][..k - 1];
    }
  }

  /** A name without an opener is left as it is. */
  lemma {:induction false} StripUnitNoOpener(name: string)
    requires forall i :: 0 <= i && i + 1 < |name| ==> !OpensUnit(name, i)
    ensures StripUnit(name) == name
  {
    if |name| >= 2 {
      assert !OpensUnit(name, 0);
      assert forall i :: 0 <= i && i + 1 < |name| - 1 ==> OpensUnit(name[1..], i) == OpensUnit(name, i + 1);
      StripUnitNoOpener(name[1..]);
      assert name == [name[0]] + name[1..];
    }
  }

  /** Shortening twice is shortening once. */
  lemma StripUnitIdempotent(name: string)
    ensures StripUnit(StripUnit(name)) == StripUnit(name)
  {
    StripUnitNoOpener(StripUnit(name));
  }

  /** The catalog's display names lose their unit. */
  lemma StripUnitExamples()
    ensures StripUnit("Rice (1kg)") == "Rice"
    ensures StripUnit("Milk") == "Milk"
  {
    StripUnitAt("Rice (1kg)", 4);
    assert "Rice (1kg)"[..4] == "Rice";
    StripUnitNoOpener("Milk");
  }

  // ---------------------------------------------------------------------
  // The displayed list total

  /** The total shown under the list: `price * quantity` summed over every
      item, bought or not. */
  method ListTotal(list: seq<LineItem>) returns (total: int)
    ensures total == Total(list)
  {
    total := 0;
    var i := 0;
    while i < |list|
      invariant 0 <= i <= |list|
      invariant total == Total(list[..i])
    {
      assert list[..i + 1][..i] == list[..i];
      total := total + list[i].price * list[i].quantity;
      i := i + 1;
    }
    assert list[..i] == list;
  }

  // ---------------------------------------------------------------------
  // Family group

  /** The name a join adds to the family members. */
  const JoinedMember: string := "Family Member"

  datatype JoinResult = EmptyCode | Joined | AlreadyJoined

  /** `joinFamilyGroup`: a blank code is refused; otherwise the placeholder
      member is added unless already present. The code's content is not
      checked further. */
  function JoinFamily(members: seq<string>, code: string): (r: (seq<string>, JoinResult))
    ensures r.1 == EmptyCode <==> Trim(code) == []
    ensures r.1 == AlreadyJoined <==> Trim(code) != [] && JoinedMember in members
    ensures r.1 != Joined ==> r.0 == members
    ensures r.1 == Joined ==> r.0 == members + [JoinedMember]
  {
    if Trim(code) == [] then (members, EmptyCode)
    else if JoinedMember in members then (members, AlreadyJoined)
    else (members + [JoinedMember], Joined)
  }

  function CountOf(members: seq<string>, m: string): nat
  {
    if members == [] then 0
    else CountOf(members[..|members| - 1], m) + (if members[|members| - 1] == m then 1 else 0)
  }

  lemma {:induction false} CountOfAbsent(members: seq<string>, m: string)
    ensures m !in members <==> CountOf(members, m) == 0
    decreases |members|
  {
    if members != [] {
      var n := |members| - 1;
      CountOfAbsent(members[..n], m);
      assert members == members[..n] + [members[n]];
    }
  }

  /** After a join with a non-blank code the placeholder member is
      listed, and joining again changes nothing. */
  lemma JoinFamilyIdempotent(members: seq<string>, code: string, code2: string)
    requires Trim(code) != [] && Trim(code2) != []
    ensures var once := JoinFamily(members, code).0;
      && JoinedMember in once
      && JoinFamily(once, code2) == (once, AlreadyJoined)
  {
    var (once, res) := JoinFamily(members, code);
    if res == Joined {
      assert once[|once| - 1] == JoinedMember;
    }
  }

  /** A join never lists the placeholder member twice. */
  lemma JoinFamilyNoDuplicate(members: seq<string>, code: string)
    requires CountOf(members, JoinedMember) <= 1
    ensures CountOf(JoinFamily(members, code).0, JoinedMember) <= 1
  {
    var once := JoinFamily(members, code).0;
    if JoinFamily(members, code).1 == Joined {
      assert once[..|once| - 1] == members;
      CountOfAbsent(members, JoinedMember);
    }
  }

  // ---------------------------------------------------------------------
  // Suggestions

  /** Suggestions come from names bought at least this often. */
  const MinPurchases: int := 2

  /** At most this many suggestions are shown. */
  const SuggestionLimit: int := 5

  /** Each purchase counts once under its name. */
  function PurchaseObs(history: seq<LineItem>): (r: seq<Obs>)
    ensures |r| == |history|
    ensures forall i :: 0 <= i < |history| ==> r[i] == Obs(history[i].name, 1, history[i])
  {
    seq(|history|, i requires 0 <= i < |history| => Obs(history[i].name, 1, history[i]))
  }

  /** The lower-cased names on the current list. */
  function ListedNames(list: seq<LineItem>): (r: seq<string>)
    ensures |r| == |list|
    ensures forall i :: 0 <= i < |list| ==> r[i] == ToLower(list[i].name)
  {
    seq(|list|, i requires 0 <= i < |list| => ToLower(list[i].name))
  }

  /** A name worth suggesting: bought often enough and not on the list in
      any letter case. */
  predicate Suggestible(e: Entry, listed: seq<string>)
  {
    e.count >= MinPurchases && ToLower(e.key) !in listed
  }

  function KeepSuggestible(t: seq<Entry>, listed: seq<string>): (r: seq<Entry>)
    ensures forall e :: e in r <==> e in t && Suggestible(e, listed)
    ensures forall e :: multiset(r)[e] == if Suggestible(e, listed) then multiset(t)[e] else 0
    ensures IsSubsequence(r, t)
    ensures DistinctKeys(t) ==> DistinctKeys(r)
  {
    if t == [] then []
    else
      var rest := KeepSuggestible(t[1..], listed);
      SubsequenceConsRight(t[0], rest, t[1..]);
      assert t == [t[0]] + t[1..];
      assert forall e :: e in t <==> e == t[0] || e in t[1..];
      assert multiset(t) == multiset{t[0]} + multiset(t[1..]);
      assert DistinctKeys(t) ==> DistinctKeys(t[1..]) by {
        if DistinctKeys(t) {
          forall i, j | 0 <= i < j < |t[1..]| ensures t[1..][i].key != t[1..][j].key {
            assert t[1..][i] == t[i + 1] && t[1..][j] == t[j + 1];
          }
        }
      }
      if Suggestible(t[0], listed) then
        SubsequenceConsBoth(t[0], rest, t[1..]);
        ConsKeepsDistinct(t[0], rest, t[1..]);
        [t[0]] + rest
      else rest
  }

  /** An entry whose key no later entry repeats can head any distinct-keyed
      selection of the entries after it. */
  lemma ConsKeepsDistinct(x: Entry, rest: seq<Entry>, tail: seq<Entry>)
    requires forall e :: e in rest ==> e in tail
    ensures DistinctKeys([x] + tail) && DistinctKeys(rest) ==> DistinctKeys([x] + rest)
  {
    if DistinctKeys([x] + tail) && DistinctKeys(rest) {
      var r := [x] + rest;
      forall j | 0 < j < |r| ensures r[j].key != x.key {
        assert r[j] == rest[j - 1] && rest[j - 1] in rest;
        var m :| 0 <= m < |tail| && tail[m] == r[j];
        var xt := [x] + tail;
        assert xt[0] == x && xt[m + 1] == r[j];
        assert xt[0].key != xt[m + 1].key;
      }
    }
  }

  /** `generateSuggestions`: names from the purchase history, each with
      its number of purchases, kept when bought at least twice and not on
      the current list, by descending count (ties in first-seen order),
      at most five. */
  function Suggestions(history: seq<LineItem>, list: seq<LineItem>): seq<Entry>
  {
    SliceTo(SortByCount(KeepSuggestible(Tally(PurchaseObs(history)), ListedNames(list))), SuggestionLimit)
  }

  /** Every suggestion was bought at least twice, under its name exactly as
      often as it says, and is on the list in no letter case; suggestions
      are at most five, distinct, and by non-increasing count; and when
      fewer than five come back, every name that qualifies is among them. */
  lemma SuggestionsSpec(history: seq<LineItem>, list: seq<LineItem>)
    ensures var r := Suggestions(history, list);
      var obs := PurchaseObs(history);
      && |r| <= SuggestionLimit
      && (forall i :: 0 <= i < |r| ==>
            && r[i].key in ObsKeys(obs)
            && r[i].count == SumFor(obs, r[i].key) >= MinPurchases
            && forall it :: it in list ==> ToLower(it.name) != ToLower(r[i].key))
      && (forall i, j :: 0 <= i < j < |r| ==> r[i].count >= r[j].count && r[i].key != r[j].key)
  {
    var obs := PurchaseObs(history);
    var listed := ListedNames(list);
    var t := Tally(obs);
    var kept := KeepSuggestible(t, listed);
    var s := SortByCount(kept);
    var r := Suggestions(history, list);
    TallyCorrect(obs);
    SortByCountCorrect(kept);
    forall i | 0 <= i < |r|
      ensures r[i].key in ObsKeys(obs) && r[i].count == SumFor(obs, r[i].key) >= MinPurchases
      ensures forall it :: it in list ==> ToLower(it.name) != ToLower(r[i].key)
    {
      assert r[i] == s[i] && s[i] in s;
      assert r[i] in kept;
      var a :| 0 <= a < |t| && t[a] == r[i];
      assert KeysOf(t)[a] == r[i].key;
      forall it | it in list ensures ToLower(it.name) != ToLower(r[i].key) {
        var m :| 0 <= m < |list| && list[m] == it;
        assert listed[m] == ToLower(it.name);
      }
    }
  }

  /** The suggestions are the top qualifying names: a name bought at
      least twice and not on the list that was left out was bought less
      often than each suggested name, or as often and first bought later. */
  lemma SuggestionsTopK(history: seq<LineItem>, list: seq<LineItem>)
    ensures var obs := PurchaseObs(history);
      var r := Suggestions(history, list);
      forall k :: k in ObsKeys(obs) && SumFor(obs, k) >= MinPurchases && ToLower(k) !in ListedNames(list) ==>
        k !in KeysOf(r) ==> forall i :: 0 <= i < |r| ==>
          && SumFor(obs, k) <= r[i].count
          && (SumFor(obs, k) == r[i].count ==> r[i].key in ObsKeys(obs) && FirstIndex(obs, r[i].key) < FirstIndex(obs, k))
  {
    var obs := PurchaseObs(history);
    forall k | k in ObsKeys(obs) && SumFor(obs, k) >= MinPurchases && ToLower(k) !in ListedNames(list)
      ensures var r := Suggestions(history, list);
        k !in KeysOf(r) ==> forall i :: 0 <= i < |r| ==>
          && SumFor(obs, k) <= r[i].count
          && (SumFor(obs, k) == r[i].count ==> r[i].key in ObsKeys(obs) && FirstIndex(obs, r[i].key) < FirstIndex(obs, k))
    {
      QualifyingOutranked(history, list, k);
    }
  }

  /** One qualifying name left out of the suggestions ranks below each of
      them. */
  lemma QualifyingOutranked(history: seq<LineItem>, list: seq<LineItem>, k: string)
    requires var obs := PurchaseObs(history);
      k in ObsKeys(obs) && SumFor(obs, k) >= MinPurchases && ToLower(k) !in ListedNames(list)
    ensures var r := Suggestions(history, list);
      var obs := PurchaseObs(history);
      k !in KeysOf(r) ==> forall i :: 0 <= i < |r| ==>
        && SumFor(obs, k) <= r[i].count
        && (SumFor(obs, k) == r[i].count ==> r[i].key in ObsKeys(obs) && FirstIndex(obs, r[i].key) < FirstIndex(obs, k))
  {
    var obs := PurchaseObs(history);
    var listed := ListedNames(list);
    var t := Tally(obs);
    var kept := KeepSuggestible(t, listed);
    var r := Suggestions(history, list);
    assert r == SortByCount(kept)[..|r|];
    if k !in KeysOf(r) {
      TallyCorrect(obs);
      TallyInFirstSeenOrder(t, obs);
      SubsequenceInFirstSeenOrder(kept, t, obs);
      var a := EntryOf(t, obs, k);
      assert Suggestible(t[a], listed);
      LeftOutRanksBelow(kept, obs, r, t[a]);
    }
  }

  /** Suggestions of equal count appear in the order their names were
      first bought. */
  lemma SuggestionsFirstSeen(history: seq<LineItem>, list: seq<LineItem>)
    ensures var obs := PurchaseObs(history);
      var r := Suggestions(history, list);
      forall i, j :: 0 <= i < j < |r| && r[i].count == r[j].count ==>
        r[i].key in ObsKeys(obs) && r[j].key in ObsKeys(obs) && FirstIndex(obs, r[i].key) < FirstIndex(obs, r[j].key)
  {
    var obs := PurchaseObs(history);
    var t := Tally(obs);
    var kept := KeepSuggestible(t, ListedNames(list));
    var r := Suggestions(history, list);
    TallyCorrect(obs);
    TallyInFirstSeenOrder(t, obs);
    SubsequenceInFirstSeenOrder(kept, t, obs);
    PrefixTiesFirstSeen(kept, obs, r);
  }

  /** Fewer than five suggestions means every qualifying name is there. */
  lemma SuggestionsComplete(history: seq<LineItem>, list: seq<LineItem>)
    requires |Suggestions(history, list)| < SuggestionLimit
    ensures var obs := PurchaseObs(history);
      forall k :: k in ObsKeys(obs) && SumFor(obs, k) >= MinPurchases && ToLower(k) !in ListedNames(list) ==>
        exists i :: 0 <= i < |Suggestions(history, list)| && Suggestions(history, list)[i].key == k
  {
    var obs := PurchaseObs(history);
    var listed := ListedNames(list);
    var t := Tally(obs);
    var kept := KeepSuggestible(t, listed);
    var s := SortByCount(kept);
    var r := Suggestions(history, list);
    TallyCorrect(obs);
    SortByCountCorrect(kept);
    assert r == s;
    forall k | k in ObsKeys(obs) && SumFor(obs, k) >= MinPurchases && ToLower(k) !in listed
      ensures exists i :: 0 <= i < |r| && r[i].key == k
    {
      assert k in KeysOf(t);
      var a :| 0 <= a < |t| && KeysOf(t)[a] == k;
      assert t[a].key == k && t[a].count == SumFor(obs, k);
      assert Suggestible(t[a], listed);
      assert t[a] in kept;
      var i :| 0 <= i < |s| && s[i] == t[a];
      assert r[i].key == k;
    }
  }
}
