/** Waivers: a waived finding is lowered, never dropped, and a waiver that has expired or matches nothing is
    itself reported. */
module Waivers {
  import opened Wrappers

  datatype Severity = Info | Warning | Error | Critical

  datatype Confidence = High | Medium | Low

  /** A finding; `detail` holds the rule id and what the rule said about it. */
  datatype Issue = Issue(severity: Severity, confidence: Confidence, message: string, locator: string,
                         detail: map<string, string>)

  datatype Waiver = Waiver(id: string, sel: seq<(string, string)>, expiry: int, reason: string)

  datatype Rule = Rule(id: string, waivers: seq<Waiver>)

  /** How locators are matched, strings folded to lower case and dates written: taken as given. */
  datatype Env = Env(glob: (string, string) -> bool, lower: string -> string, iso: int -> string,
                     show: Severity -> string)

  function Detail(i: Issue, key: string): string { if key in i.detail then i.detail[key] else "" }

  function RuleOf(i: Issue): string { Detail(i, "rule_id") }

  predicate MatchesOne(env: Env, i: Issue, item: (string, string)) {
    if item.0 == "locator" then env.glob(i.locator, item.1)
    else env.lower(Detail(i, item.0)) == env.lower(item.1)
  }

  /** A waiver without a selector matches every finding of its rule. */
  predicate Matches(env: Env, i: Issue, sel: seq<(string, string)>) {
    forall item | item in sel :: MatchesOne(env, i, item)
  }

  /** The waivers that apply to a rule id: those of the last rule with that id. */
  function WaiversFor(rules: seq<Rule>, id: string): seq<Waiver> {
    if rules == [] then []
    else
      var r := rules[|rules| - 1];
      if r.id == id then r.waivers else WaiversFor(rules[..|rules| - 1], id)
  }

  predicate Suppresses(env: Env, i: Issue, w: Waiver, today: int) {
    Matches(env, i, w.sel) && w.expiry >= today
  }

  /** An unexpired waiver of the finding's own rule matches it. */
  predicate Waived(env: Env, rules: seq<Rule>, today: int, i: Issue) {
    exists w :: w in WaiversFor(rules, RuleOf(i)) && Suppresses(env, i, w, today)
  }

  /** The finding lowered by a waiver: all it said before is still there, with who waived it and how severe
      it was. */
  function Lowered(env: Env, i: Issue, w: Waiver): Issue {
    Issue(Info, Low, "[WAIVED until " + env.iso(w.expiry) + " by " + w.id + ": " + w.reason + "] " +
          i.message, i.locator,
          i.detail["waived" := "true"]["waiver_id" := w.id]["waiver_expiry" := env.iso(w.expiry)]
                  ["original_severity" := env.show(i.severity)])
  }

  /** The finding after all waivers: lowered by the first that suppresses it, or as it was. */
  predicate IsTransformed(env: Env, rules: seq<Rule>, today: int, i: Issue, o: Issue) {
    var ws := WaiversFor(rules, RuleOf(i));
    if Waived(env, rules, today, i) then
      exists k :: 0 <= k < |ws| && Suppresses(env, i, ws[k], today) && o == Lowered(env, i, ws[k])
                  && forall j | 0 <= j < k :: !Suppresses(env, i, ws[j], today)
    else o == i
  }

  /** Some finding of the rule matches the waiver. */
  predicate Hit(env: Env, issues: seq<Issue>, rule: string, w: Waiver) {
    exists i :: i in issues && RuleOf(i) == rule && Matches(env, i, w.sel)
  }

  function Notice(rule: string, check: string, message: string): Issue {
    Issue(Warning, Medium, message, "", map["rule_id" := rule, "check" := check])
  }

  /** What is reported about a waiver: that it has expired and would match, or that it matches nothing. */
  function NoticeFor(env: Env, issues: seq<Issue>, today: int, rule: string, w: Waiver): Option<Issue> {
    if !Hit(env, issues, rule, w) then
      Some(Notice(rule, "waiver-stale", "waiver " + w.id + " matched nothing (stale \U{2014} remove it)"))
    else if w.expiry < today then
      Some(Notice(rule, "waiver-expired",
                  "waiver " + w.id + " expired " + env.iso(w.expiry) + " \U{2014} no longer suppresses " + rule))
    else None
  }

  /** Every waiver with its rule, in order. */
  function AllWaivers(rules: seq<Rule>): seq<(string, Waiver)> {
    if rules == [] then []
    else AllWaivers(rules[..|rules| - 1]) + Tagged(rules[|rules| - 1].id, rules[|rules| - 1].waivers)
  }

  function Tagged(rule: string, ws: seq<Waiver>): (r: seq<(string, Waiver)>)
    ensures |r| == |ws| && forall i | 0 <= i < |ws| :: r[i] == (rule, ws[i])
  {
    seq(|ws|, (i: int) requires 0 <= i < |ws| => (rule, ws[i]))
  }

  /** One notice for every waiver that calls for one, in order. */
  function Notices(env: Env, issues: seq<Issue>, today: int, ws: seq<(string, Waiver)>): seq<Issue> {
    if ws == [] then []
    else
      var init, w := Notices(env, issues, today, ws[..|ws| - 1]), ws[|ws| - 1];
      match NoticeFor(env, issues, today, w.0, w.1)
      case Some(n) => init + [n]
      case None => init
  }

  lemma NoticesMore(env: Env, issues: seq<Issue>, today: int, ws: seq<(string, Waiver)>, w: (string, Waiver))
    ensures Notices(env, issues, today, ws + [w]) == Notices(env, issues, today, ws) +
              (match NoticeFor(env, issues, today, w.0, w.1) case Some(n) => [n] case None => [])
  {
    assert (ws + [w])[..|ws|] == ws;
  }

  // ---------------------------------------------------------------- the transform

  /** `_match`. */
  method MatchIssue(env: Env, i: Issue, sel: seq<(string, string)>) returns (ok: bool)
    ensures ok <==> Matches(env, i, sel)
  {
    var k := 0;
    while k < |sel|
      invariant k <= |sel| && forall j | 0 <= j < k :: MatchesOne(env, i, sel[j])
    {
      if sel[k].0 == "locator" {
        if !env.glob(i.locator, sel[k].1) {
          assert sel[k] in sel;
          return false;
        }
      } else if env.lower(Detail(i, sel[k].0)) != env.lower(sel[k].1) {
        assert sel[k] in sel;
        return false;
      }
      k := k + 1;
    }
    return true;
  }

  /** The rules by id: a later rule replaces an earlier one with the same id. */
  method ByRule(rules: seq<Rule>) returns (byRule: map<string, seq<Waiver>>)
    ensures forall id :: (if id in byRule then byRule[id] else []) == WaiversFor(rules, id)
  {
    byRule := map[];
    var k := 0;
    while k < |rules|
      invariant k <= |rules|
      invariant forall id :: (if id in byRule then byRule[id] else []) == WaiversFor(rules[..k], id)
    {
      assert rules[..k + 1][..k] == rules[..k];
      byRule := byRule[rules[k].id := rules[k].waivers];
      k := k + 1;
    }
    assert rules[..k] == rules;
  }

  /** The inner loop over a finding's waivers. */
  method ApplyFirst(env: Env, i: Issue, ws: seq<Waiver>, today: int) returns (o: Issue)
    ensures if exists w :: w in ws && Suppresses(env, i, w, today) then
              exists k :: 0 <= k < |ws| && Suppresses(env, i, ws[k], today) && o == Lowered(env, i, ws[k])
                          && forall j | 0 <= j < k :: !Suppresses(env, i, ws[j], today)
            else o == i
  {
    var k := 0;
    while k < |ws|
      invariant k <= |ws| && forall j | 0 <= j < k :: !Suppresses(env, i, ws[j], today)
    {
      var matched := MatchIssue(env, i, ws[k].sel);
      if matched && ws[k].expiry >= today {
        assert ws[k] in ws;
        return Lowered(env, i, ws[k]);
      }
      k := k + 1;
    }
    return i;
  }

  /** Whether any finding of the rule matches. */
  method AnyHit(env: Env, issues: seq<Issue>, rule: string, w: Waiver) returns (hit: bool)
    ensures hit <==> Hit(env, issues, rule, w)
  {
    var k := 0;
    while k < |issues|
      invariant k <= |issues| && forall j | 0 <= j < k :: RuleOf(issues[j]) == rule ==> !Matches(env, issues[j], w.sel)
    {
      if RuleOf(issues[k]) == rule {
        var matched := MatchIssue(env, issues[k], w.sel);
        if matched {
          assert issues[k] in issues;
          return true;
        }
      }
      k := k + 1;
    }
    return false;
  }

  /** `apply_waivers`: first every finding, in order and lowered or not, then one notice for every waiver that
      calls for one. */
  method ApplyWaivers(env: Env, issues: seq<Issue>, rules: seq<Rule>, today: int) returns (out: seq<Issue>)
    ensures |out| >= |issues|
    ensures forall k | 0 <= k < |issues| :: IsTransformed(env, rules, today, issues[k], out[k])
    ensures out[|issues|..] == Notices(env, issues, today, AllWaivers(rules))
  {
    hide IsTransformed, Notices, AllWaivers;
    out := Transform(env, issues, rules, today);
    var notices := AllNotices(env, issues, rules, today);
    out := out + notices;
  }

  method Transform(env: Env, issues: seq<Issue>, rules: seq<Rule>, today: int) returns (out: seq<Issue>)
    ensures |out| == |issues|
    ensures forall k | 0 <= k < |issues| :: IsTransformed(env, rules, today, issues[k], out[k])
  {
    var byRule := ByRule(rules);
    out := [];
    var k := 0;
    while k < |issues|
      invariant |out| == k <= |issues|
      invariant forall j | 0 <= j < k :: IsTransformed(env, rules, today, issues[j], out[j])
    {
      hide WaiversFor, Suppresses, Lowered;
      var rid := RuleOf(issues[k]);
      var ws := if rid in byRule then byRule[rid] else [];
      assert ws == WaiversFor(rules, rid);
      var o := ApplyFirst(env, issues[k], ws, today);
      assert IsTransformed(env, rules, today, issues[k], o);
      out := out + [o];
      k := k + 1;
    }
  }

  method AllNotices(env: Env, issues: seq<Issue>, rules: seq<Rule>, today: int) returns (out: seq<Issue>)
    ensures out == Notices(env, issues, today, AllWaivers(rules))
  {
    out := [];
    var r := 0;
    while r < |rules|
      invariant r <= |rules|
      invariant out == Notices(env, issues, today, AllWaivers(rules[..r]))
    {
      hide Notices;
      assert rules[..r + 1][..r] == rules[..r];
      var more := RuleNotices(env, issues, today, AllWaivers(rules[..r]), rules[r]);
      out := out + more;
      r := r + 1;
    }
    assert rules[..r] == rules;
  }

  /** The notices about one rule's waivers. */
  method RuleNotices(env: Env, issues: seq<Issue>, today: int, ghost before: seq<(string, Waiver)>, rule: Rule)
      returns (more: seq<Issue>)
    ensures Notices(env, issues, today, before + Tagged(rule.id, rule.waivers))
         == Notices(env, issues, today, before) + more
  {
    hide Notices, Hit, NoticeFor;
    more := [];
    var k := 0;
    NoneYet(before, rule);
    while k < |rule.waivers|
      invariant k <= |rule.waivers|
      invariant Notices(env, issues, today, before + Tagged(rule.id, rule.waivers)[..k])
             == Notices(env, issues, today, before) + more
    {
      var w := rule.waivers[k];
      NoticesNext(env, issues, today, before, rule, k);
      var hit := AnyHit(env, issues, rule.id, w);
      Calls(env, issues, today, rule.id, w);
      if w.expiry < today && hit {
        more := more + [Notice(rule.id, "waiver-expired", "waiver " + w.id + " expired " + env.iso(w.expiry)
                                                          + " \U{2014} no longer suppresses " + rule.id)];
      } else if !hit {
        more := more + [Notice(rule.id, "waiver-stale",
                               "waiver " + w.id + " matched nothing (stale \U{2014} remove it)")];
      }
      k := k + 1;
    }
    assert Tagged(rule.id, rule.waivers)[..k] == Tagged(rule.id, rule.waivers);
  }

  lemma NoneYet(before: seq<(string, Waiver)>, rule: Rule)
    ensures before + Tagged(rule.id, rule.waivers)[..0] == before
  {
  }

  lemma Calls(env: Env, issues: seq<Issue>, today: int, rule: string, w: Waiver)
    ensures NoticeFor(env, issues, today, rule, w) ==
            if !Hit(env, issues, rule, w) then
              Some(Notice(rule, "waiver-stale", "waiver " + w.id + " matched nothing (stale \U{2014} remove it)"))
            else if w.expiry < today then
              Some(Notice(rule, "waiver-expired",
                          "waiver " + w.id + " expired " + env.iso(w.expiry)
                          + " \U{2014} no longer suppresses " + rule))
            else None
  {
    hide Hit;
  }

  lemma NoticesNext(env: Env, issues: seq<Issue>, today: int, before: seq<(string, Waiver)>, rule: Rule, k: nat)
    requires k < |rule.waivers|
    ensures var all, n := Tagged(rule.id, rule.waivers), NoticeFor(env, issues, today, rule.id, rule.waivers[k]);
            Notices(env, issues, today, before + all[..k + 1])
            == Notices(env, issues, today, before + all[..k]) + (if n.Some? then [n.value] else [])
  {
    hide Notices, NoticeFor;
    var all := Tagged(rule.id, rule.waivers);
    assert before + all[..k + 1] == before + all[..k] + [all[k]];
    NoticesMore(env, issues, today, before + all[..k], all[k]);
  }

  // ---------------------------------------------------------------- what it means for the verdict

  /** Every notice is a warning about some waiver, and every waiver that calls for one has one. */
  lemma {:induction false} NoticesAre(env: Env, issues: seq<Issue>, today: int, ws: seq<(string, Waiver)>)
    ensures forall n | n in Notices(env, issues, today, ws) ::
              n.severity == Warning && exists w :: w in ws && NoticeFor(env, issues, today, w.0, w.1) == Some(n)
    ensures forall w | w in ws && NoticeFor(env, issues, today, w.0, w.1).Some? ::
              NoticeFor(env, issues, today, w.0, w.1).value in Notices(env, issues, today, ws)
    ensures |Notices(env, issues, today, ws)| <= |ws|
  {
    hide Hit;
    if ws != [] {
      NoticesAre(env, issues, today, ws[..|ws| - 1]);
    }
  }

  /** The waivers that call for a notice. */
  function Calling(env: Env, issues: seq<Issue>, today: int, ws: seq<(string, Waiver)>): (r: seq<(string, Waiver)>)
    ensures forall w | w in r :: w in ws && NoticeFor(env, issues, today, w.0, w.1).Some?
  {
    if ws == [] then []
    else
      var init, w := Calling(env, issues, today, ws[..|ws| - 1]), ws[|ws| - 1];
      if NoticeFor(env, issues, today, w.0, w.1).Some? then init + [w] else init
  }

  /** The notice about a waiver: under its rule, a warning that says stale when no finding matches, and else expired. */
  predicate IsNotice(env: Env, issues: seq<Issue>, today: int, rule: string, w: Waiver, n: Issue) {
    && n.severity == Warning && n.confidence == Medium && Detail(n, "rule_id") == rule
    && (!Hit(env, issues, rule, w) ==> Detail(n, "check") == "waiver-stale")
    && (Hit(env, issues, rule, w) ==> w.expiry < today && Detail(n, "check") == "waiver-expired")
  }

  lemma NoticeIs(env: Env, issues: seq<Issue>, today: int, rule: string, w: Waiver)
    requires NoticeFor(env, issues, today, rule, w).Some?
    ensures IsNotice(env, issues, today, rule, w, NoticeFor(env, issues, today, rule, w).value)
  {
    hide Hit;
  }

  /** A waiver of the finding's own rule that matches it either suppresses it, or is reported as expired. */
  lemma SuppressesOrExpired(env: Env, issues: seq<Issue>, rules: seq<Rule>, today: int, i: Issue, w: Waiver)
    requires i in issues && w in WaiversFor(rules, RuleOf(i)) && Matches(env, i, w.sel)
    ensures Suppresses(env, i, w, today) <==> NoticeFor(env, issues, today, RuleOf(i), w).None?
    ensures !Suppresses(env, i, w, today) ==>
              Detail(NoticeFor(env, issues, today, RuleOf(i), w).value, "check") == "waiver-expired"
  {
    hide Matches, WaiversFor;
    assert Hit(env, issues, RuleOf(i), w);
  }

  /** There is exactly one notice for every waiver that is stale, or expired and matching. */
  lemma {:induction false} OneNoticeEach(env: Env, issues: seq<Issue>, today: int, ws: seq<(string, Waiver)>)
    ensures var cs, ns := Calling(env, issues, today, ws), Notices(env, issues, today, ws);
            |ns| == |cs| && forall i | 0 <= i < |cs| :: IsNotice(env, issues, today, cs[i].0, cs[i].1, ns[i])
    ensures forall w | w in ws && (!Hit(env, issues, w.0, w.1) || w.1.expiry < today) ::
              w in Calling(env, issues, today, ws)
  {
    hide Hit;
    if ws != [] {
      OneNoticeEach(env, issues, today, ws[..|ws| - 1]);
      var w := ws[|ws| - 1];
      if NoticeFor(env, issues, today, w.0, w.1).Some? {
        NoticeIs(env, issues, today, w.0, w.1);
      }
    }
  }

  datatype Verdict = Pass | Warn | Fail

  /** Errors and criticals fail the report; without one, a warning makes it a warning. */
  predicate Gating(i: Issue) { i.severity == Error || i.severity == Critical }

  function VerdictOf(issues: seq<Issue>): Verdict {
    if exists i :: i in issues && Gating(i) then Fail
    else if exists i :: i in issues && i.severity == Warning then Warn
    else Pass
  }

  /** What the verdict is taken from: with no active rule, a warning that nothing was verified comes last. */
  function Reported(out: seq<Issue>, rules: seq<Rule>): seq<Issue> {
    if rules == [] then
      out + [Notice("_meta", "no-rules",
                    "no telecom invariants are active (defaults.enabled=false and none enabled)"
                    + " \U{2014} nothing was verified")]
    else out
  }

  /** The part of `grade_cfg` after the rules have run. */
  method Grade(env: Env, issues: seq<Issue>, rules: seq<Rule>, today: int)
      returns (report: seq<Issue>, verdict: Verdict)
    ensures |report| >= |issues|
              && forall k | 0 <= k < |issues| :: IsTransformed(env, rules, today, issues[k], report[k])
    ensures verdict == VerdictOf(report)
    ensures verdict == Fail <==> exists i :: i in issues && Gating(i) && !Waived(env, rules, today, i)
    ensures verdict == Pass <==>
              && rules != []
              && (forall i | i in issues && i.severity != Info :: Waived(env, rules, today, i))
              && Calling(env, issues, today, AllWaivers(rules)) == []
  {
    hide Waived, Notices, AllWaivers, IsTransformed, Calling, Gating;
    var out := ApplyWaivers(env, issues, rules, today);
    GateIsUnwaived(env, issues, rules, today, out);
    report := Reported(out, rules);
    var gating, warn, k := false, false, 0;
    while k < |report|
      invariant k <= |report|
      invariant gating <==> exists i :: i in report[..k] && Gating(i)
      invariant warn <==> exists i :: i in report[..k] && i.severity == Warning
    {
      assert report[..k + 1] == report[..k] + [report[k]];
      gating := gating || Gating(report[k]);
      warn := warn || report[k].severity == Warning;
      k := k + 1;
    }
    assert report[..k] == report;
    verdict := if gating then Fail else if warn then Warn else Pass;
  }

  /** The transform changes the verdict by exactly the waivers. The report fails if and only if some gating
      finding was not waived. It passes if and only if some rule is active, every finding above INFO was waived
      and no waiver is stale, or expired and matching. */
  lemma GateIsUnwaived(env: Env, issues: seq<Issue>, rules: seq<Rule>, today: int, out: seq<Issue>)
    requires |out| >= |issues|
    requires forall k | 0 <= k < |issues| :: IsTransformed(env, rules, today, issues[k], out[k])
    requires out[|issues|..] == Notices(env, issues, today, AllWaivers(rules))
    ensures var verdict := VerdictOf(Reported(out, rules));
            && (verdict == Fail <==> exists i :: i in issues && Gating(i) && !Waived(env, rules, today, i))
            && (verdict == Pass <==>
                  && rules != []
                  && (forall i | i in issues && i.severity != Info :: Waived(env, rules, today, i))
                  && Calling(env, issues, today, AllWaivers(rules)) == [])
  {
    hide Waived, Notices, AllWaivers, IsTransformed, Calling, VerdictOf, Gating, Reported;
    var ws, left := AllWaivers(rules), out[..|issues|];
    assert out == left + out[|issues|..];
    forall k | 0 <= k < |issues|
      ensures left[k].severity == if Waived(env, rules, today, issues[k]) then Info else issues[k].severity
    {
      SeverityIs(env, rules, today, issues[k], out[k]);
    }
    NoticesAre(env, issues, today, ws);
    OneNoticeEach(env, issues, today, ws);
    SeveritiesLeft(env, issues, rules, today, left);
    ReportedWith(left, Notices(env, issues, today, ws), rules);
  }

  /** The verdict of what is left of the findings, the notices and the warning about no rules. */
  lemma ReportedWith(left: seq<Issue>, notices: seq<Issue>, rules: seq<Rule>)
    requires forall n | n in notices :: n.severity == Warning
    ensures var verdict := VerdictOf(Reported(left + notices, rules));
            && (verdict == Fail <==> exists o :: o in left && Gating(o))
            && (verdict == Pass <==> rules != [] && (forall o | o in left :: o.severity == Info) && notices == [])
  {
    hide VerdictOf, Gating;
    var more := Reported([], rules);
    assert Reported(left + notices, rules) == left + (notices + more);
    VerdictWith(left, notices + more);
  }

  lemma SeverityIs(env: Env, rules: seq<Rule>, today: int, i: Issue, o: Issue)
    requires IsTransformed(env, rules, today, i, o)
    ensures o.severity == if Waived(env, rules, today, i) then Info else i.severity
  {
    hide Waived, Suppresses;
  }

  /** Further warnings change no verdict but a pass. */
  lemma VerdictWith(left: seq<Issue>, notices: seq<Issue>)
    requires forall n | n in notices :: n.severity == Warning
    ensures VerdictOf(left + notices) == Fail <==> exists o :: o in left && Gating(o)
    ensures VerdictOf(left + notices) == Pass <==> (forall o | o in left :: o.severity == Info) && notices == []
  {
    var out := left + notices;
    assert forall o :: o in out <==> o in left || o in notices;
    if notices != [] {
      assert notices[0] in notices;
    }
  }

  /** What the findings that are left say about each severity. */
  lemma SeveritiesLeft(env: Env, issues: seq<Issue>, rules: seq<Rule>, today: int, out: seq<Issue>)
    requires |out| == |issues|
    requires forall k | 0 <= k < |issues| ::
               out[k].severity == if Waived(env, rules, today, issues[k]) then Info else issues[k].severity
    ensures (exists o :: o in out && Gating(o)) <==>
              exists i :: i in issues && Gating(i) && !Waived(env, rules, today, i)
    ensures (exists o :: o in out && o.severity != Info) <==>
            exists i :: i in issues && i.severity != Info && !Waived(env, rules, today, i)
  {
    hide Waived;
    if i :| i in issues && i.severity != Info && !Waived(env, rules, today, i) {
      var k :| 0 <= k < |issues| && issues[k] == i;
      assert out[k] in out;
    }
    if i :| i in issues && Gating(i) && !Waived(env, rules, today, i) {
      var k :| 0 <= k < |issues| && issues[k] == i;
      assert out[k] in out;
    }
  }

  /** Nothing is lost: where and about which rule a finding was, how severe, and all it said, can be read off
      the output whether it was waived or not. */
  lemma NothingDropped(env: Env, rules: seq<Rule>, today: int, i: Issue, o: Issue)
    requires IsTransformed(env, rules, today, i, o)
    ensures o.locator == i.locator && RuleOf(o) == RuleOf(i)
    ensures forall key | key in i.detail && key !in ADDED :: key in o.detail && o.detail[key] == i.detail[key]
    ensures |o.message| >= |i.message| && o.message[|o.message| - |i.message|..] == i.message
    ensures if Waived(env, rules, today, i)
            then o.severity == Info && o.confidence == Low && Detail(o, "original_severity") == env.show(i.severity)
                 && Detail(o, "waived") == "true"
                 && exists w :: w in WaiversFor(rules, RuleOf(i)) && Suppresses(env, i, w, today)
                                && Detail(o, "waiver_id") == w.id && Detail(o, "waiver_expiry") == env.iso(w.expiry)
            else o == i
  {
    hide Waived, WaiversFor, Suppresses;
    var ws := WaiversFor(rules, RuleOf(i));
    if Waived(env, rules, today, i) {
      var k :| 0 <= k < |ws| && Suppresses(env, i, ws[k], today) && o == Lowered(env, i, ws[k]);
      assert ws[k] in ws;
      LoweredKeeps(env, i, ws[k]);
    }
  }

  /** The details a waiver adds. */
  const ADDED: set<string> := {"waived", "waiver_id", "waiver_expiry", "original_severity"}

  lemma LoweredKeeps(env: Env, i: Issue, w: Waiver)
    ensures var o := Lowered(env, i, w);
            && |o.message| >= |i.message| && o.message[|o.message| - |i.message|..] == i.message
            && Detail(o, "waiver_id") == w.id && Detail(o, "waiver_expiry") == env.iso(w.expiry)
            && Detail(o, "waived") == "true"
  {
  }

  // ---------------------------------------------------------------- which waivers count

  /** A finding answers everything a selector asks: its locator fits every pattern asked for, and every other detail,
      empty if it has none, is what is asked for up to case. */
  ghost predicate Answers(env: Env, i: Issue, sel: seq<(string, string)>) {
    && (forall pattern | ("locator", pattern) in sel :: env.glob(i.locator, pattern))
    && (forall key, value | (key, value) in sel && key != "locator" ::
          env.lower(value) == env.lower(if key in i.detail then i.detail[key] else ""))
  }

  lemma MatchesIs(env: Env, i: Issue, sel: seq<(string, string)>)
    ensures Matches(env, i, sel) <==> Answers(env, i, sel)
  {
    if Matches(env, i, sel) {
      forall pattern | ("locator", pattern) in sel ensures env.glob(i.locator, pattern) {
        assert MatchesOne(env, i, ("locator", pattern));
      }
      forall key, value | (key, value) in sel && key != "locator"
        ensures env.lower(value) == env.lower(if key in i.detail then i.detail[key] else "")
      {
        assert MatchesOne(env, i, (key, value));
      }
    }
    if Answers(env, i, sel) {
      forall item | item in sel ensures MatchesOne(env, i, item) {
        assert item == (item.0, item.1);
      }
    }
  }

  /** The last rule with an id is the one whose waivers count. */
  lemma {:induction false} LastRule(rules: seq<Rule>, id: string) returns (k: int)
    ensures -1 <= k < |rules| && forall j | k < j < |rules| :: rules[j].id != id
    ensures if k < 0 then WaiversFor(rules, id) == []
            else rules[k].id == id && WaiversFor(rules, id) == rules[k].waivers
  {
    var n := |rules| - 1;
    if rules == [] {
      k := -1;
    } else if rules[n].id == id {
      k := n;
    } else {
      k := LastRule(rules[..n], id);
    }
  }

  /** When a finding is waived: some waiver that has not expired, of the last rule with the id the finding gives, asks
      for nothing the finding does not answer. */
  lemma WaivedWhen(env: Env, rules: seq<Rule>, today: int, i: Issue)
    ensures Waived(env, rules, today, i) <==>
              exists k, w :: 0 <= k < |rules| && w in rules[k].waivers && w.expiry >= today && Answers(env, i, w.sel)
                             && rules[k].id == (if "rule_id" in i.detail then i.detail["rule_id"] else "")
                             && forall j | k < j < |rules| :: rules[j].id != rules[k].id
  {
    hide Answers, Matches, WaiversFor;
    var k := LastRule(rules, RuleOf(i));
    forall w: Waiver ensures Matches(env, i, w.sel) <==> Answers(env, i, w.sel) {
      MatchesIs(env, i, w.sel);
    }
    if k >= 0 {
      assert forall w | w in rules[k].waivers :: w in WaiversFor(rules, RuleOf(i));
    }
  }

  /** When a notice is called for: no finding of the rule answers the waiver, or one does and it has expired. */
  lemma NoticeWhen(env: Env, issues: seq<Issue>, today: int, rule: string, w: Waiver)
    ensures var hit := exists i :: i in issues && Answers(env, i, w.sel)
                                   && (if "rule_id" in i.detail then i.detail["rule_id"] else "") == rule;
            && (NoticeFor(env, issues, today, rule, w).None? <==> hit && w.expiry >= today)
            && (!hit ==> Detail(NoticeFor(env, issues, today, rule, w).value, "check") == "waiver-stale")
            && (hit && w.expiry < today ==>
                  Detail(NoticeFor(env, issues, today, rule, w).value, "check") == "waiver-expired")
  {
    hide Answers, Matches;
    forall i: Issue ensures Matches(env, i, w.sel) <==> Answers(env, i, w.sel) {
      MatchesIs(env, i, w.sel);
    }
  }

  lemma NextWaivers(rules: seq<Rule>, k: nat)
    requires k < |rules|
    ensures AllWaivers(rules[..k + 1]) == AllWaivers(rules[..k]) + Tagged(rules[k].id, rules[k].waivers)
  {
    assert rules[..k + 1][..k] == rules[..k];
  }

  lemma {:induction false} EarlierWaivers(rules: seq<Rule>, k: nat)
    requires k <= |rules|
    ensures AllWaivers(rules[..k]) <= AllWaivers(rules)
    decreases |rules| - k
  {
    hide Tagged;
    if k == |rules| {
      assert rules[..k] == rules;
    } else {
      NextWaivers(rules, k);
      EarlierWaivers(rules, k + 1);
    }
  }

  /** All waivers: rule by rule, in order, none left out. */
  lemma WaiversInOrder(rules: seq<Rule>, k: nat)
    requires k < |rules|
    ensures AllWaivers(rules[..0]) == []
    ensures AllWaivers(rules[..k + 1]) == AllWaivers(rules[..k]) + Tagged(rules[k].id, rules[k].waivers)
    ensures AllWaivers(rules[..k + 1]) <= AllWaivers(rules)
  {
    assert AllWaivers(rules[..0]) == [];
    NextWaivers(rules, k);
    hide AllWaivers, Tagged;
    EarlierWaivers(rules, k + 1);
  }
}
