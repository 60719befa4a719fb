/**
 * E-mail helpers: the clean-up of rendered text templates, the subject prefix of the
 * demonstration environment, the dummy asynchronous backend and the serialization of a
 * message for the task queue.
 */
module Emails {
  import opened Wrappers
  import opened Sequences

  /** `n` line breaks. */
  function LineBreaks(n: nat): (r: string)
    ensures |r| == n
  {
    seq(n, i => '\n')
  }

  /** The number of line breaks `s` starts with. */
  function LeadingLineBreaks(s: string): (n: nat)
    ensures n <= |s|
    ensures forall i :: 0 <= i < n ==> s[i] == '\n'
    ensures n < |s| ==> s[n] != '\n'
  {
    if s != [] && s[0] == '\n' then 1 + LeadingLineBreaks(s[1..]) else 0
  }

  /**
   * `re.sub(r"\n{3,}", "\n\n", text)`: the regular expression matches, left to right, each
   * maximal run of three line breaks or more, and each match is replaced by two line breaks.
   */
  function RemoveExtraLineBreaks(text: string): (r: string)
    ensures |r| <= |text|
    decreases |text|
  {
    if text == [] then []
    else if text[0] != '\n' then [text[0]] + RemoveExtraLineBreaks(text[1..])
    else
      var n := LeadingLineBreaks(text);
      (if n >= 3 then "\n\n" else text[..n]) + RemoveExtraLineBreaks(text[n..])
  }

  predicate TripleLineBreakAt(s: string, i: int)
    requires 0 <= i && i + 2 < |s|
  {
    s[i] == '\n' && s[i + 1] == '\n' && s[i + 2] == '\n'
  }

  /** `s` contains three consecutive line breaks. */
  predicate HasExtraLineBreaks(s: string)
  {
    exists i :: 0 <= i && i + 2 < |s| && TripleLineBreakAt(s, i)
  }

  /** `s` with its line breaks removed. */
  function WithoutLineBreaks(s: string): (r: string)
  {
    if s == [] then [] else (if s[0] == '\n' then [] else [s[0]]) + WithoutLineBreaks(s[1..])
  }

  lemma {:induction false} WithoutLineBreaksDistributes(a: string, b: string)
    ensures WithoutLineBreaks(a + b) == WithoutLineBreaks(a) + WithoutLineBreaks(b)
  {
    if a == [] {
      assert a + b == b;
    } else {
      assert (a + b)[1..] == a[1..] + b;
      WithoutLineBreaksDistributes(a[1..], b);
    }
  }

  lemma {:induction false} WithoutLineBreaksOfLineBreaks(s: string)
    requires forall i :: 0 <= i < |s| ==> s[i] == '\n'
    ensures WithoutLineBreaks(s) == []
  {
    if s != [] {
      WithoutLineBreaksOfLineBreaks(s[1..]);
    }
  }

  /** A text that starts with another character than a line break keeps it in front. */
  lemma RemoveExtraLineBreaksKeepsFirst(text: string)
    requires text != [] && text[0] != '\n'
    ensures RemoveExtraLineBreaks(text) != [] && RemoveExtraLineBreaks(text)[0] == text[0]
  {
  }

  /** Prepending a character other than a line break creates no triple. */
  lemma NoTripleAfterCharacter(c: char, t: string)
    requires c != '\n' && !HasExtraLineBreaks(t)
    ensures !HasExtraLineBreaks([c] + t)
  {
    var s := [c] + t;
    forall i | 0 <= i && i + 2 < |s|
      ensures !TripleLineBreakAt(s, i)
    {
      if i > 0 {
        assert !TripleLineBreakAt(t, i - 1);
      }
    }
  }

  /** Prepending at most two line breaks to a text that does not start with one creates no triple. */
  lemma NoTripleAfterShortRun(run: string, t: string)
    requires |run| <= 2 && forall i :: 0 <= i < |run| ==> run[i] == '\n'
    requires t == [] || t[0] != '\n'
    requires !HasExtraLineBreaks(t)
    ensures !HasExtraLineBreaks(run + t)
  {
    var s := run + t;
    forall i | 0 <= i && i + 2 < |s|
      ensures !TripleLineBreakAt(s, i)
    {
      if i >= |run| {
        assert !TripleLineBreakAt(t, i - |run|);
      } else {
        assert s[|run|] == t[0];
      }
    }
  }

  /** The output never contains three consecutive line breaks. */
  lemma {:induction false} RemoveExtraLineBreaksLeavesNoTriple(text: string)
    ensures !HasExtraLineBreaks(RemoveExtraLineBreaks(text))
    decreases |text|
  {
    if text == [] {
    } else if text[0] != '\n' {
      RemoveExtraLineBreaksLeavesNoTriple(text[1..]);
      NoTripleAfterCharacter(text[0], RemoveExtraLineBreaks(text[1..]));
    } else {
      var n := LeadingLineBreaks(text);
      var rest := text[n..];
      RemoveExtraLineBreaksLeavesNoTriple(rest);
      if rest != [] {
        RemoveExtraLineBreaksKeepsFirst(rest);
      }
      NoTripleAfterShortRun(if n >= 3 then "\n\n" else text[..n], RemoveExtraLineBreaks(rest));
    }
  }

  /** A text without three consecutive line breaks is left as it is. */
  lemma {:induction false} RemoveExtraLineBreaksFixesCleanText(text: string)
    requires !HasExtraLineBreaks(text)
    ensures RemoveExtraLineBreaks(text) == text
    decreases |text|
  {
    if text == [] {
    } else if text[0] != '\n' {
      forall i | 0 <= i && i + 2 < |text[1..]|
        ensures !TripleLineBreakAt(text[1..], i)
      {
        assert !TripleLineBreakAt(text, i + 1);
      }
      RemoveExtraLineBreaksFixesCleanText(text[1..]);
    } else {
      var n := LeadingLineBreaks(text);
      if n >= 3 {
        assert TripleLineBreakAt(text, 0);
      }
      forall i | 0 <= i && i + 2 < |text[n..]|
        ensures !TripleLineBreakAt(text[n..], i)
      {
        assert !TripleLineBreakAt(text, i + n);
      }
      RemoveExtraLineBreaksFixesCleanText(text[n..]);
      assert text[..n] + text[n..] == text;
    }
  }

  /** A text with three consecutive line breaks gets strictly shorter; no text gets longer. */
  lemma {:induction false} RemoveExtraLineBreaksShortens(text: string)
    ensures |RemoveExtraLineBreaks(text)| <= |text|
    ensures HasExtraLineBreaks(text) ==> |RemoveExtraLineBreaks(text)| < |text|
    decreases |text|
  {
    if text == [] {
    } else if text[0] != '\n' {
      RemoveExtraLineBreaksShortens(text[1..]);
      if HasExtraLineBreaks(text) {
        var i :| 0 <= i && i + 2 < |text| && TripleLineBreakAt(text, i);
        assert i > 0;
        assert TripleLineBreakAt(text[1..], i - 1);
      }
    } else {
      var n := LeadingLineBreaks(text);
      RemoveExtraLineBreaksShortens(text[n..]);
      if HasExtraLineBreaks(text) && n < 3 {
        var i :| 0 <= i && i + 2 < |text| && TripleLineBreakAt(text, i);
        assert i >= n;
        assert TripleLineBreakAt(text[n..], i - n);
      }
    }
  }

  /** The output is exactly as long as the input if and only if the input has no run of three line breaks. */
  lemma RemoveExtraLineBreaksLength(text: string)
    ensures |RemoveExtraLineBreaks(text)| <= |text|
    ensures |RemoveExtraLineBreaks(text)| == |text| <==> !HasExtraLineBreaks(text)
  {
    RemoveExtraLineBreaksShortens(text);
    if !HasExtraLineBreaks(text) {
      RemoveExtraLineBreaksFixesCleanText(text);
    }
  }

  /** Applying the clean-up twice is the same as applying it once. */
  lemma RemoveExtraLineBreaksIdempotent(text: string)
    ensures RemoveExtraLineBreaks(RemoveExtraLineBreaks(text)) == RemoveExtraLineBreaks(text)
  {
    RemoveExtraLineBreaksLeavesNoTriple(text);
    RemoveExtraLineBreaksFixesCleanText(RemoveExtraLineBreaks(text));
  }

  /** Every character other than a line break is kept, in order, and none is added. */
  lemma {:induction false} RemoveExtraLineBreaksKeepsOtherCharacters(text: string)
    ensures WithoutLineBreaks(RemoveExtraLineBreaks(text)) == WithoutLineBreaks(text)
    decreases |text|
  {
    if text == [] {
    } else if text[0] != '\n' {
      RemoveExtraLineBreaksKeepsOtherCharacters(text[1..]);
      WithoutLineBreaksDistributes([text[0]], RemoveExtraLineBreaks(text[1..]));
      WithoutLineBreaksDistributes([text[0]], text[1..]);
      assert [text[0]] + text[1..] == text;
    } else {
      var n := LeadingLineBreaks(text);
      var run := if n >= 3 then "\n\n" else text[..n];
      RemoveExtraLineBreaksKeepsOtherCharacters(text[n..]);
      WithoutLineBreaksDistributes(run, RemoveExtraLineBreaks(text[n..]));
      WithoutLineBreaksDistributes(text[..n], text[n..]);
      WithoutLineBreaksOfLineBreaks(run);
      WithoutLineBreaksOfLineBreaks(text[..n]);
      assert text[..n] + text[n..] == text;
    }
  }

  lemma {:induction false} LeadingLineBreaksOfConcat(a: string, b: string)
    requires LeadingLineBreaks(a) < |a|
    ensures LeadingLineBreaks(a + b) == LeadingLineBreaks(a)
  {
    if a[0] == '\n' {
      assert (a + b)[1..] == a[1..] + b;
      LeadingLineBreaksOfConcat(a[1..], b);
    }
  }

  /** The clean-up works independently on both sides of a character other than a line break. */
  lemma {:induction false} RemoveExtraLineBreaksSplits(a: string, b: string)
    requires a == [] || a[|a| - 1] != '\n'
    ensures RemoveExtraLineBreaks(a + b) == RemoveExtraLineBreaks(a) + RemoveExtraLineBreaks(b)
    decreases |a|
  {
    if a == [] {
      assert a + b == b;
    } else if a[0] != '\n' {
      assert (a + b)[1..] == a[1..] + b;
      RemoveExtraLineBreaksSplits(a[1..], b);
      ConcatAssociates([a[0]], RemoveExtraLineBreaks(a[1..]), RemoveExtraLineBreaks(b));
    } else {
      var n := LeadingLineBreaks(a);
      assert n < |a|;
      LeadingLineBreaksOfConcat(a, b);
      assert (a + b)[..n] == a[..n];
      assert (a + b)[n..] == a[n..] + b;
      RemoveExtraLineBreaksSplits(a[n..], b);
      var kept := if n >= 3 then "\n\n" else a[..n];
      assert RemoveExtraLineBreaks(a + b) == kept + RemoveExtraLineBreaks(a[n..] + b);
      assert RemoveExtraLineBreaks(a) == kept + RemoveExtraLineBreaks(a[n..]);
      ConcatAssociates(kept, RemoveExtraLineBreaks(a[n..]), RemoveExtraLineBreaks(b));
    }
  }

  lemma {:induction false} LeadingLineBreaksOfRun(n: nat, b: string)
    requires b == [] || b[0] != '\n'
    ensures LeadingLineBreaks(LineBreaks(n) + b) == n
  {
    if n == 0 {
      assert LineBreaks(n) + b == b;
    } else {
      assert (LineBreaks(n) + b)[1..] == LineBreaks(n - 1) + b;
      LeadingLineBreaksOfRun(n - 1, b);
    }
  }

  /** A leading run of line breaks is collapsed when it has three or more. */
  lemma RemoveExtraLineBreaksOfRun(n: nat, b: string)
    requires b == [] || b[0] != '\n'
    ensures RemoveExtraLineBreaks(LineBreaks(n) + b) == LineBreaks(if n >= 3 then 2 else n) + RemoveExtraLineBreaks(b)
  {
    var s := LineBreaks(n) + b;
    if n == 0 {
      assert s == b;
    } else {
      LeadingLineBreaksOfRun(n, b);
      assert s[0] == '\n';
      assert s[n..] == b;
      if n >= 3 {
        assert "\n\n" == LineBreaks(2);
      } else {
        assert s[..n] == LineBreaks(n);
      }
    }
  }

  /**
   * Each maximal run of line breaks becomes two line breaks when it has three or more, and
   * stays as it is otherwise; the text around it is cleaned up independently.
   */
  lemma RunOfLineBreaksCollapses(a: string, n: nat, b: string)
    requires a == [] || a[|a| - 1] != '\n'
    requires b == [] || b[0] != '\n'
    ensures RemoveExtraLineBreaks(a + LineBreaks(n) + b) ==
              RemoveExtraLineBreaks(a) + LineBreaks(if n >= 3 then 2 else n) + RemoveExtraLineBreaks(b)
  {
    ConcatAssociates(a, LineBreaks(n), b);
    RemoveExtraLineBreaksSplits(a, LineBreaks(n) + b);
    RemoveExtraLineBreaksOfRun(n, b);
    ConcatAssociates(RemoveExtraLineBreaks(a), LineBreaks(if n >= 3 then 2 else n), RemoveExtraLineBreaks(b));
  }

  const DEMO_ENVIRONMENT := "DEMO"
  const DEMO_SUBJECT_PREFIX := "[DEMO] "

  /** The fields of a Django `EmailMessage` that the project sets or serializes. */
  datatype EmailMessage = EmailMessage(
    subject: string,
    body: string,
    fromEmail: string,
    to: seq<string>,
    cc: seq<string>,
    bcc: seq<string>)

  /**
   * `get_email_message`. `renderedSubject` and `renderedBody` are the stripped renderings of the
   * two templates; the clean-up of `get_email_text_template` is applied to both, and the subject
   * gets the demonstration prefix when the environment is "DEMO". No cc is set; a missing `bcc` is
   * the empty list.
   */
  function GetEmailMessage(to: seq<string>, renderedSubject: string, renderedBody: string, fromEmail: string,
                           bcc: seq<string>, environment: string): (m: EmailMessage)
    ensures environment == DEMO_ENVIRONMENT ==> m.subject == DEMO_SUBJECT_PREFIX + RemoveExtraLineBreaks(renderedSubject)
    ensures environment != DEMO_ENVIRONMENT ==> m.subject == RemoveExtraLineBreaks(renderedSubject)
    ensures m.body == RemoveExtraLineBreaks(renderedBody)
    ensures !HasExtraLineBreaks(m.body) && WithoutLineBreaks(m.body) == WithoutLineBreaks(renderedBody)
    ensures m.fromEmail == fromEmail && m.to == to && m.cc == [] && m.bcc == bcc
  {
    RemoveExtraLineBreaksLeavesNoTriple(renderedBody);
    RemoveExtraLineBreaksKeepsOtherCharacters(renderedBody);
    var subjectPrefix := if environment == DEMO_ENVIRONMENT then DEMO_SUBJECT_PREFIX else "";
    EmailMessage(
      subject := subjectPrefix + RemoveExtraLineBreaks(renderedSubject),
      body := RemoveExtraLineBreaks(renderedBody),
      fromEmail := fromEmail,
      to := to,
      cc := [],
      bcc := bcc)
  }

  /** A value of the dictionary built by `_serializeEmailMessage`. */
  datatype SerializedField = Text(text: string) | Addresses(addresses: seq<string>)

  const SERIALIZED_KEYS: set<string> := {"subject", "to", "from_email", "cc", "bcc", "body"}

  /** `_serializeEmailMessage`: the six fields of the message, under their Django names. */
  function SerializeEmailMessage(m: EmailMessage): (d: map<string, SerializedField>)
    ensures d.Keys == SERIALIZED_KEYS
  {
    map["subject" := Text(m.subject), "to" := Addresses(m.to), "from_email" := Text(m.fromEmail),
        "cc" := Addresses(m.cc), "bcc" := Addresses(m.bcc), "body" := Text(m.body)]
  }

  /**
   * `_deserializeEmailMessage`, i.e. `EmailMessage(**d)`, for dictionaries with exactly the
   * serialized keys, each holding a value of the right kind; any other dictionary is refused.
   */
  function DeserializeEmailMessage(d: map<string, SerializedField>): (m: Option<EmailMessage>)
    ensures m.Some? <==>
              && d.Keys == SERIALIZED_KEYS
              && d["subject"].Text? && d["body"].Text? && d["from_email"].Text?
              && d["to"].Addresses? && d["cc"].Addresses? && d["bcc"].Addresses?
  {
    if && d.Keys == SERIALIZED_KEYS
       && d["subject"].Text? && d["body"].Text? && d["from_email"].Text?
       && d["to"].Addresses? && d["cc"].Addresses? && d["bcc"].Addresses?
    then
      Some(EmailMessage(d["subject"].text, d["body"].text, d["from_email"].text,
                        d["to"].addresses, d["cc"].addresses, d["bcc"].addresses))
    else None
  }

  /** Serializing, then rebuilding, gives back the message. */
  lemma SerializeRoundTrip(m: EmailMessage)
    ensures DeserializeEmailMessage(SerializeEmailMessage(m)) == Some(m)
  {
  }

  /** The dictionaries that can be rebuilt are exactly the serializations of their message. */
  lemma DeserializeRoundTrip(d: map<string, SerializedField>)
    requires DeserializeEmailMessage(d).Some?
    ensures SerializeEmailMessage(DeserializeEmailMessage(d).value) == d
  {
    var r := SerializeEmailMessage(DeserializeEmailMessage(d).value);
    assert r.Keys == d.Keys;
    forall k | k in d
      ensures r[k] == d[k]
    {
      assert k in SERIALIZED_KEYS;
    }
  }

  /** Serialization loses nothing: two messages with the same serialization are equal. */
  lemma SerializeIsInjective(m1: EmailMessage, m2: EmailMessage)
    requires SerializeEmailMessage(m1) == SerializeEmailMessage(m2)
    ensures m1 == m2
  {
    SerializeRoundTrip(m1);
    SerializeRoundTrip(m2);
  }

  /** The experimental backend that hands every message to the task queue. */
  class DummyAsyncEmailBackend {

    /**
     * `send_messages`: `None` for an empty list; otherwise every message is handed, in order,
     * to the `_async_proces_email` task (the sequence `dispatched`) and their number is returned.
     */
    method SendMessages(emailMessages: seq<EmailMessage>) returns (sent: Option<nat>, dispatched: seq<EmailMessage>)
      ensures emailMessages == [] ==> sent == None && dispatched == []
      ensures emailMessages != [] ==> sent == Some(|emailMessages|) && dispatched == emailMessages
    {
      if emailMessages == [] {
        return None, [];
      }
      var nbSent := 0;
      dispatched := [];
      for i := 0 to |emailMessages|
        invariant nbSent == i
        invariant dispatched == emailMessages[..i]
      {
        dispatched := dispatched + [emailMessages[i]];
        nbSent := nbSent + 1;
      }
      sent := Some(nbSent);
    }
  }
}
