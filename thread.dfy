/**
 * The `Thread` object: the fields the source keeps on a thread and the
 * methods that update them in place. Each method is proved to move the
 * object's state exactly as the step function of `ThreadSpec` does, so the
 * properties proved there hold of the object.
 */
module Threads {
  import opened Wrappers
  import opened Text
  import opened MailConfig
  import opened Messages
  import TS = ThreadSpec

  class Thread {
    var id: string
    var subject: string
    var messageCount: int
    var statLabels: set<string>
    var memberLabels: set<string>
    var nonPing: bool
    var oldestDate: Option<int>
    var lastContactDate: Option<int>
    var checkInDate: Option<int>
    var vm: TS.Voicemails      // admin_vm, res_vm, sales_vm, finance_vm
    var pings: TS.Pings        // demo, inquiry, support_ping, new_org, sales_ping
    var goodThread: bool
    var checked: bool
    var closed: bool
    var messages: seq<Message>

    /** The object's fields as one value of the specification. */
    ghost function State(): TS.ThreadState
      reads this
    {
      TS.ThreadState(
        id, subject, messageCount, statLabels, memberLabels, nonPing,
        oldestDate, lastContactDate, checkInDate,
        vm, pings, TS.Verdict(goodThread, checked),
        closed, messages)
    }

    /** `__init__`: a thread built from its first message, which it then evaluates. */
    constructor(m: Message, statRef: set<string>, cutoff: int, memberRef: set<string>, cfg: Config, decide: TS.Decide)
      ensures State() == TS.Created(m, statRef, cutoff, memberRef, cfg, decide)
      ensures TS.Consistent(State(), cfg)
    {
      id := m.threadId;
      var labels := ExtractLabels(m, statRef, memberRef);
      statLabels, memberLabels := labels.0, labels.1;
      lastContactDate := None;
      oldestDate := m.date;
      goodThread := TS.MeetsCutoff(m.date, cutoff);
      if !(IsFromSupport(m, cfg) || IsInternal(m.fromAddress, cfg)) {
        lastContactDate := m.date;
      }
      checkInDate := None;
      nonPing := labels.0 != {};
      pings := TS.Pings(false, false, false, false, false);
      vm := TS.Voicemails(false, false, false, false);
      messageCount := 1;
      checked := false;
      closed := true;
      subject := m.subject;
      messages := [];
      new;
      Evaluate(m, cfg, decide);
      messages := [m];
      TS.CreatedProperties(m, statRef, cutoff, memberRef, cfg, decide);
    }

    /** `_evaluate`: the voicemail, ping, manual-decision, check-in and open-label rules, in that order. */
    method Evaluate(m: Message, cfg: Config, decide: TS.Decide)
      modifies this
      ensures State() == TS.Evaluate(old(State()), m, cfg, decide)
    {
      ghost var s := State();
      LabelRules(m, cfg);
      ghost var count, groups := messageCount, pings;
      TrailingRules(m, cfg, decide);
      assert State() == TS.ThreadState(s.id, s.subject, count, s.statLabels, s.memberLabels, s.nonPing, s.oldestDate,
                                       s.lastContactDate, checkInDate, vm, groups, TS.Verdict(goodThread, checked),
                                       closed, s.messages);
      TS.EvaluateComposed(s, m, cfg, decide, count, vm, groups, TS.Verdict(goodThread, checked), checkInDate, closed);
    }

    /** The rules that look only at the labels and the subject: voicemails, pings and sales pings. */
    method LabelRules(m: Message, cfg: Config)
      modifies this`vm, this`messageCount, this`pings, this`checked
      ensures messageCount == if TS.Decrements(m, cfg) then old(messageCount) - 1 else old(messageCount)
      ensures vm == TS.VoicemailStep(old(vm), m, cfg)
      ensures pings == TS.SalesPingStep(TS.PingStep(old(pings), m, messageCount, cfg), m, cfg)
      ensures checked == (old(checked) || cfg.salesPing in m.labels)
    {
      VoicemailRule(m, cfg);
      PingRule(m, cfg);
      SalesPingRule(m, cfg);
    }

    /** The rules that follow: the manual decision and check-in tracking on non-ping threads, then the open labels. */
    method TrailingRules(m: Message, cfg: Config, decide: TS.Decide)
      modifies this`goodThread, this`checked, this`checkInDate, this`closed
      ensures TS.Verdict(goodThread, checked) ==
              TS.ManualCheckStep(old(TS.Verdict(goodThread, checked)), old(nonPing), old(pings), m, cfg, decide)
      ensures checkInDate == TS.CheckInStep(old(checkInDate), old(nonPing), m, cfg)
      ensures closed == (old(closed) && !HasOpenMarker(m, cfg))
    {
      NonPingRules(m, cfg, decide);
      OpenLabelRule(m, cfg);
    }

    /** The voicemail group: the first voicemail label present sets its flag; a researcher voicemail not relayed by the ping address is not counted. */
    method VoicemailRule(m: Message, cfg: Config)
      modifies this`vm, this`messageCount
      ensures vm == TS.VoicemailStep(old(vm), m, cfg)
      ensures messageCount == if TS.Decrements(m, cfg) then old(messageCount) - 1 else old(messageCount)
    {
      if cfg.vmAdmin in m.labels {
        vm := vm.(admin := true);
      } else if cfg.vmResearcher in m.labels {
        vm := vm.(researcher := true);
        if !Contains(m.fromAddress, cfg.pingEmail) {
          messageCount := messageCount - 1;
        }
      } else if cfg.vmSales in m.labels {
        vm := vm.(sales := true);
      } else if cfg.vmFinance in m.labels {
        vm := vm.(finance := true);
      }
    }

    /** The ping group: the first of demo, inquiry and support ping present sets its flag; otherwise a new organisation is recognised on the second counted message. */
    method PingRule(m: Message, cfg: Config)
      modifies this`pings
      ensures pings == TS.PingStep(old(pings), m, old(messageCount), cfg)
    {
      if cfg.pingDemo in m.labels {
        pings := pings.(demo := true);
      } else if cfg.pingInquiry in m.labels {
        pings := pings.(inquiry := true);
      } else if cfg.pingSupport in m.labels {
        pings := pings.(supportPing := true);
      } else if cfg.newOrg in m.labels && messageCount == 2 {
        pings := pings.(newOrg := true);
      }
    }

    /** A sales ping marks the thread checked; its subject may also make it a demo request or an inquiry. */
    method SalesPingRule(m: Message, cfg: Config)
      modifies this`pings, this`checked
      ensures pings == TS.SalesPingStep(old(pings), m, cfg)
      ensures checked == (old(checked) || cfg.salesPing in m.labels)
    {
      if cfg.salesPing in m.labels {
        pings := pings.(salesPing := true);
        checked := true;
        if Contains(m.subject, DEMO_PHRASE) {
          pings := pings.(demo := true);
        } else if Contains(m.subject, INQUIRY_PHRASE) {
          pings := pings.(inquiry := true);
        }
      }
    }

    /** The rules that apply only to a thread with stat labels: the manual decision, then check-in tracking. */
    method NonPingRules(m: Message, cfg: Config, decide: TS.Decide)
      modifies this`goodThread, this`checked, this`checkInDate
      ensures TS.Verdict(goodThread, checked) ==
              TS.ManualCheckStep(old(TS.Verdict(goodThread, checked)), old(nonPing), old(pings), m, cfg, decide)
      ensures checkInDate == TS.CheckInStep(old(checkInDate), old(nonPing), m, cfg)
    {
      if nonPing {
        if !checked && goodThread {
          ManualCheckRule(m, cfg, decide);
        }
        CheckInRule(m, cfg);
      }
    }

    /** A message to and from support, or an internal one, on an undecided good thread asks whether the thread counts. */
    method ManualCheckRule(m: Message, cfg: Config, decide: TS.Decide)
      requires nonPing && !checked && goodThread
      modifies this`goodThread, this`checked
      ensures TS.Verdict(goodThread, checked) ==
              TS.ManualCheckStep(old(TS.Verdict(goodThread, checked)), old(nonPing), old(pings), m, cfg, decide)
    {
      if IsToFromSupport(m, cfg) && !pings.newOrg {
        ShouldItCount(m, TS.TO_FROM_SUPPORT, false, cfg, decide);
      } else if IsInternal(m.fromAddress, cfg) || (IsFromSupport(m, cfg) && IsInternal(m.to, cfg) && !pings.salesPing) {
        ShouldItCount(m, TS.INTERNAL, false, cfg, decide);
      }
    }

    /** A check-in message later than the recorded check-in moves the check-in date. */
    method CheckInRule(m: Message, cfg: Config)
      requires nonPing
      modifies this`checkInDate
      ensures checkInDate == TS.CheckInStep(old(checkInDate), old(nonPing), m, cfg)
    {
      if cfg.checkIn in m.labels {
        if m.date.Some? && (checkInDate.None? || checkInDate.value < m.date.value) {
          checkInDate := m.date;
        }
      }
    }

    /** Any label containing an open marker re-opens the thread. */
    method OpenLabelRule(m: Message, cfg: Config)
      modifies this`closed
      ensures closed == (old(closed) && !HasOpenMarker(m, cfg))
    {
      for k := 0 to |cfg.openLabels|
        invariant closed == (old(closed) && forall j | 0 <= j < k :: !AnyLabelContains(m.labels, cfg.openLabels[j]))
      {
        if AnyLabelContains(m.labels, cfg.openLabels[k]) {
          closed := false;
        }
      }
    }

    /** `should_it_count`: the prompt's answer, or the answer a global switch forces. */
    method ShouldItCount(m: Message, tag: string, override: bool, cfg: Config, decide: TS.Decide)
      modifies this`goodThread, this`checked
      ensures TS.Verdict(goodThread, checked) ==
              TS.Decision(old(TS.Verdict(goodThread, checked)), m, tag, override, cfg, decide)
    {
      if override || !(cfg.countAll || cfg.countNone) {
        checked := true;
        goodThread := decide(m, tag);
      } else if cfg.countNone {
        goodThread := false;
      } else {
        goodThread := true;
      }
    }

    /** `add_message`: merge the message's labels and dates into the thread, then evaluate it. */
    method AddMessage(m: Message, statRef: set<string>, cutoff: int, memberRef: set<string>,
                      cfg: Config, decide: TS.Decide)
      modifies this
      ensures State() == TS.Added(old(State()), m, statRef, cutoff, memberRef, cfg, decide)
      ensures TS.Consistent(old(State()), cfg) ==> TS.Consistent(State(), cfg)
    {
      MergeLabels(m, statRef, memberRef);
      MergeDates(m, cutoff, cfg);
      Evaluate(m, cfg, decide);
      TS.AddedComposed(old(State()), m, statRef, cutoff, memberRef, cfg, decide, State());
      messages := messages + [m];
      if TS.Consistent(old(State()), cfg) {
        TS.AddedConsistent(old(State()), m, statRef, cutoff, memberRef, cfg, decide);
      }
    }

    /** The label loops of `add_message`: the count, the two label unions and `non_ping`. */
    method MergeLabels(m: Message, statRef: set<string>, memberRef: set<string>)
      modifies this`messageCount, this`statLabels, this`memberLabels, this`nonPing
      ensures State() == TS.LabelsMerged(old(State()), m, statRef, memberRef)
    {
      messageCount := messageCount + 1;
      var labels := ExtractLabels(m, statRef, memberRef);
      var stats := AddLabels(statLabels, labels.0);
      var members := AddLabels(memberLabels, labels.1);
      statLabels, memberLabels, nonPing := stats, members, stats != {};
    }

    /** The date half of `add_message`: the cutoff check, the oldest date and the last contact date. */
    method MergeDates(m: Message, cutoff: int, cfg: Config)
      modifies this`goodThread, this`oldestDate, this`lastContactDate
      ensures State() == TS.DatesMerged(old(State()), m, cutoff, cfg)
    {
      if !TS.MeetsCutoff(m.date, cutoff) {
        goodThread := false;
      }
      if m.date.Some? && (oldestDate.None? || m.date.value < oldestDate.value) {
        oldestDate := m.date;
      }
      if !(IsFromSupport(m, cfg) || IsInternal(m.fromAddress, cfg)) {
        if m.date.Some? && (lastContactDate.None? || m.date.value > lastContactDate.value) {
          lastContactDate := m.date;
        }
      }
    }

    /** `dont_count`: the thread no longer counts. */
    method DontCount()
      modifies this`goodThread
      ensures !goodThread
    {
      goodThread := false;
    }
  }

  /** One label loop of `add_message`: each new label is added to the thread's set in turn. */
  method AddLabels(labels: set<string>, extra: set<string>) returns (r: set<string>)
    ensures r == labels + extra
  {
    r := labels;
    var rest := extra;
    while rest != {}
      invariant r + rest == labels + extra
      decreases |rest|
    {
      var l :| l in rest;
      r := r + {l};
      rest := rest - {l};
    }
  }
}
