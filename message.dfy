/**
 * The configuration the classifier reads. The source keeps these in a
 * global settings module; here they are one value passed to every operation.
 */
module MailConfig {

  /** The organisation's own mail domain, hard-coded in `is_internal`. */
  const DOMAIN_MARKER := "irbnet.org"
  /** Subject phrases that turn a sales ping into a demo request or an inquiry. */
  const DEMO_PHRASE := "IRBNet Demo Request"
  const INQUIRY_PHRASE := "IRBNet Inquiry From"

  datatype Config = Config(
    internalEmails: seq<string>,  // senders inside the domain that still count as outside contacts
    supportEmail: string,
    pingEmail: string,            // the relay address that forwards researcher voicemails
    vmAdmin: string,
    vmResearcher: string,
    vmSales: string,
    vmFinance: string,
    pingDemo: string,
    pingInquiry: string,
    pingSupport: string,
    newOrg: string,
    salesPing: string,
    checkIn: string,
    openLabels: seq<string>,      // substrings of a label that keep a thread open
    countAll: bool,               // skip the prompt and count every questionable thread
    countNone: bool               // skip the prompt and count no questionable thread
  )
}

/**
 * One mail message in normal form, and the predicates over senders,
 * recipients and labels that the thread rules consult.
 */
module Messages {
  import opened Wrappers
  import opened Text
  import opened MailConfig

  /**
   * A message record as the mail service delivers it: any header may be
   * missing. The Date header arrives already parsed to a timestamp.
   */
  datatype RawMessage = RawMessage(
    threadId: Option<string>,
    to: Option<string>,
    subject: Option<string>,
    from: Option<string>,
    labels: seq<string>,
    date: Option<int>
  )

  datatype Message = Message(
    threadId: string,
    to: string,
    fromAddress: string,
    subject: string,
    labels: seq<string>,
    date: Option<int>
  )

  /** No whitelisted substring occurs in `address` (the `all(...)` in `is_internal`). */
  function NoneOccur(address: string, whitelist: seq<string>): (r: bool)
    ensures r <==> forall k :: 0 <= k < |whitelist| ==> !Contains(address, whitelist[k])
  {
    if whitelist == [] then true
    else !Contains(address, whitelist[0]) && NoneOccur(address, whitelist[1..])
  }

  /** A sender or recipient inside the organisation that is not on the whitelist. */
  function IsInternal(address: string, cfg: Config): (r: bool)
    ensures r <==> Contains(address, DOMAIN_MARKER) &&
                   forall x :: x in cfg.internalEmails ==> !Contains(address, x)
  {
    Contains(address, DOMAIN_MARKER) && NoneOccur(address, cfg.internalEmails)
  }

  /** The text a sender is reduced to before lower-casing (the slice in the `Message` constructor). */
  function AddressText(a: string): (t: string)
    ensures |t| <= |a|
    ensures '<' in a && '>' in a ==> '>' !in t
  {
    if '<' !in a || '>' !in a then a
    else
      var open, close := Find(a, '<'), Find(a, '>');
      // Python's slice a[open + 1:close] is empty once close is not past open.
      if open < close then (assert a[open + 1..close] == a[..close][open + 1..]; a[open + 1..close]) else []
  }

  /**
   * The sender in normal form: the text strictly between the first `<` and
   * the first `>` when both occur, otherwise the whole string, lower-cased.
   */
  function NormalizeAddress(a: string): (r: string)
    ensures '<' !in a || '>' !in a ==> r == Lower(a)
    ensures |r| <= |a|
    ensures '<' in a && '>' in a ==> '>' !in r
  {
    var t := AddressText(a);
    if '<' in a && '>' in a then LowerKeepsAbsent(t, '>'); Lower(t) else Lower(t)
  }

  /** Lower-casing neither creates nor removes a character that is not a letter. */
  lemma LowerKeepsAbsent(s: string, c: char)
    requires c !in s && !IsUpper(c) && !('a' <= c <= 'z')
    ensures c !in Lower(s)
  {
    var r := Lower(s);
    forall i | 0 <= i < |r| ensures r[i] != c {
      assert r[i] == LowerChar(s[i]);
    }
  }

  /** With both brackets present, the sender is the lower-cased text strictly between the first `<` and the first `>`. */
  lemma NormalizeAddressBrackets(a: string, i: int, j: int)
    requires 0 <= i < |a| && a[i] == '<' && '<' !in a[..i]
    requires 0 <= j < |a| && a[j] == '>' && '>' !in a[..j]
    ensures NormalizeAddress(a) == Lower(if i < j then a[i + 1..j] else [])
  {
    FindFirst(a, '<', i);
    FindFirst(a, '>', j);
  }

  /** Normalising an address that is already normalised changes nothing. */
  lemma NormalizeAddressIdempotent(a: string)
    ensures NormalizeAddress(NormalizeAddress(a)) == NormalizeAddress(a)
  {
    var t := AddressText(a);
    var r := NormalizeAddress(a);
    if '<' !in a || '>' !in a {
      if '<' !in a { LowerKeepsAbsent(a, '<'); } else { LowerKeepsAbsent(a, '>'); }
    }
    assert '<' !in r || '>' !in r;
    LowerIdempotent(t);
  }

  /**
   * The Message constructor: missing headers become "", line breaks are
   * removed from the subject and the sender is normalised.
   */
  function MessageOf(raw: RawMessage): (m: Message)
    ensures m.threadId == raw.threadId.GetOr("")
    ensures m.to == raw.to.GetOr("")
    ensures '\n' !in m.subject && '\r' !in m.subject
    ensures m.subject == Without(Without(raw.subject.GetOr(""), '\n'), '\r')
    ensures forall c :: c != '\n' && c != '\r' ==> (c in m.subject <==> c in raw.subject.GetOr(""))
    ensures raw.from.None? ==> m.fromAddress == ""
    ensures raw.from.Some? ==> m.fromAddress == NormalizeAddress(raw.from.value)
    ensures m.labels == raw.labels && m.date == raw.date
  {
    Message(
      raw.threadId.GetOr(""),
      raw.to.GetOr(""),
      if raw.from.None? then "" else NormalizeAddress(raw.from.value),
      if raw.subject.None? then "" else Without(Without(raw.subject.value, '\n'), '\r'),
      raw.labels,
      raw.date)
  }

  predicate IsFromSupport(m: Message, cfg: Config) {
    Contains(m.fromAddress, cfg.supportEmail)
  }

  /** Both addressed to and sent from the support mailbox. */
  predicate IsToFromSupport(m: Message, cfg: Config) {
    Contains(m.to, cfg.supportEmail) && Contains(m.fromAddress, cfg.supportEmail)
  }

  /** The labels of `labels` that belong to `reference`, collected one label at a time. */
  function LabelsIn(labels: seq<string>, reference: set<string>): set<string>
    decreases |labels|
  {
    if labels == [] then {}
    else LabelsIn(labels[..|labels| - 1], reference) + (if labels[|labels| - 1] in reference then {labels[|labels| - 1]} else {})
  }

  /** A label is collected exactly when the message carries it and the reference set names it. */
  lemma {:induction false} LabelsInMeaning(labels: seq<string>, reference: set<string>)
    ensures LabelsIn(labels, reference) == set l | l in labels && l in reference
    decreases |labels|
  {
    if labels != [] {
      var init, last := labels[..|labels| - 1], labels[|labels| - 1];
      LabelsInMeaning(init, reference);
      assert labels == init + [last];
      assert forall l :: l in labels <==> l in init || l == last;
    }
  }

  /** `extract_labels`: the message's stat labels and member labels. */
  function ExtractLabels(m: Message, statRef: set<string>, memberRef: set<string>): (set<string>, set<string>) {
    (LabelsIn(m.labels, statRef), LabelsIn(m.labels, memberRef))
  }

  /** `extract_labels` keeps exactly the message's labels found in each reference set. */
  lemma ExtractLabelsMeaning(m: Message, statRef: set<string>, memberRef: set<string>)
    ensures ExtractLabels(m, statRef, memberRef).0 == set l | l in m.labels && l in statRef
    ensures ExtractLabels(m, statRef, memberRef).1 == set l | l in m.labels && l in memberRef
  {
    LabelsInMeaning(m.labels, statRef);
    LabelsInMeaning(m.labels, memberRef);
  }

  /** Some label of the message contains `marker` as a substring. */
  predicate AnyLabelContains(labels: seq<string>, marker: string) {
    exists i | 0 <= i < |labels| :: Contains(labels[i], marker)
  }

  /** Some open marker of the configuration occurs in some label of the message. */
  predicate HasOpenMarker(m: Message, cfg: Config) {
    exists k | 0 <= k < |cfg.openLabels| :: AnyLabelContains(m.labels, cfg.openLabels[k])
  }

  /** A message that updates the last contact date: neither from support nor internal. */
  predicate IsContact(m: Message, cfg: Config) {
    !(IsFromSupport(m, cfg) || IsInternal(m.fromAddress, cfg))
  }

  /**
   * A message sent by support, in particular one to and from support, is
   * never a contact message, so it never supplies the last contact date.
   */
  lemma SupportIsNotContact(m: Message, cfg: Config)
    ensures IsToFromSupport(m, cfg) ==> IsFromSupport(m, cfg)
    ensures IsFromSupport(m, cfg) ==> !IsContact(m, cfg)
  {
  }
}
