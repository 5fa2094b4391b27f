/**
 * message.go: the normalised Message handed to listeners, the text
 * predicates listeners filter on, the self-mention scanner, and the choice of
 * reply target and mention prefix.
 */
module Messages {
  import opened Optional
  import opened Text
  import opened SlackTypes

  /** IsPrivate: direct-message channel ids start with "D". */
  function IsPrivate(m: Msg): (private: bool)
    ensures private <==> m.channel != "" && m.channel[0] == 'D'
  {
    IsPrefix("D", m.channel)
  }

  /** ContainsAnyCased: some entry of `strs` occurs in the text, case-sensitively. */
  function ContainsAnyCased(m: Msg, strs: seq<string>): (found: bool)
    ensures found <==> exists k :: 0 <= k < |strs| && IsSubstring(strs[k], m.text)
    decreases |strs|
  {
    |strs| > 0 && (IsSubstring(strs[0], m.text) || ContainsAnyCased(m, strs[1..]))
  }

  /** ContainsAny: some entry of `strs` occurs in the text once both are lower-cased. */
  function ContainsAny(m: Msg, strs: seq<string>): (found: bool)
    ensures found <==> exists k :: 0 <= k < |strs| && IsSubstring(ToLower(strs[k]), ToLower(m.text))
    decreases |strs|
  {
    |strs| > 0 && (IsSubstring(ToLower(strs[0]), ToLower(m.text)) || ContainsAny(m, strs[1..]))
  }

  /** ContainsAll: every entry of `strs` occurs in the lower-cased text; the first miss answers false. */
  function ContainsAll(m: Msg, strs: seq<string>): (all: bool)
    ensures all <==> forall k :: 0 <= k < |strs| ==> IsSubstring(ToLower(strs[k]), ToLower(m.text))
    decreases |strs|
  {
    |strs| == 0 || (IsSubstring(ToLower(strs[0]), ToLower(m.text)) && ContainsAll(m, strs[1..]))
  }

  /** Contains: one string, case-insensitively. */
  function Contains(m: Msg, s: string): (found: bool)
    ensures found <==> exists i :: OccursAt(ToLower(s), ToLower(m.text), i)
  {
    IsSubstringIff(ToLower(s), ToLower(m.text));
    IsSubstring(ToLower(s), ToLower(m.text))
  }

  /** HasPrefix: the text starts with `prefix`, case-sensitively. */
  function HasPrefix(m: Msg, prefix: string): (starts: bool)
    ensures starts <==> |prefix| <= |m.text| && forall i :: 0 <= i < |prefix| ==> m.text[i] == prefix[i]
  {
    IsPrefix(prefix, m.text)
  }

  /** Contains(s) answers what ContainsAny([s]) answers. */
  lemma ContainsIsContainsAnyOfOne(m: Msg, s: string)
    ensures Contains(m, s) == ContainsAny(m, [s])
  {
    assert [s][1..] == [];
  }

  /** A case-sensitive hit is also a case-insensitive one. */
  lemma {:induction false} CasedImpliesUncased(m: Msg, strs: seq<string>)
    requires ContainsAnyCased(m, strs)
    ensures ContainsAny(m, strs)
  {
    var k :| 0 <= k < |strs| && IsSubstring(strs[k], m.text);
    LoweringKeepsSubstring(strs[k], m.text);
  }

  /** A prefix of the text is contained in it. */
  lemma PrefixIsContained(m: Msg, prefix: string)
    requires HasPrefix(m, prefix)
    ensures ContainsAnyCased(m, [prefix])
  {
    assert IsSubstring([prefix][0], m.text);
  }

  /** The public message of message_test.go. */
  const TEST_MESSAGE := Msg("", "This is a test.", "U2147483698", "C2147483705", "", "", "")

  /** message_test.go: the case-sensitive and the case-insensitive tests both see "This". */
  lemma TestMessageContainsThis()
    ensures ContainsAnyCased(TEST_MESSAGE, ["This", "not"])
    ensures ContainsAny(TEST_MESSAGE, ["this", "not"])
  {
    var lt := ToLower(TEST_MESSAGE.text);
    assert IsPrefix("This", TEST_MESSAGE.text);
    assert lt[..4] == "this";
    assert ToLower("this") == "this";
    assert IsPrefix("this", lt);
  }

  /** message_test.go: the prefix test is case-sensitive, and a "C" channel is public. */
  lemma PrefixTestMessage()
    ensures HasPrefix(TEST_MESSAGE, "This") && !HasPrefix(TEST_MESSAGE, "this")
    ensures !IsPrivate(TEST_MESSAGE)
  {
  }

  // ---------------------------------------------------------------------
  // The mention pattern `<@([A-Z0-9]+)(|([^>]+))>`, scanned by hand

  predicate IsIdChar(c: char)
  {
    'A' <= c <= 'Z' || '0' <= c <= '9'
  }

  /** End of the run of id characters that starts at `i`. */
  function IdRunEnd(s: string, i: nat): (j: nat)
    requires i <= |s|
    ensures i <= j <= |s|
    ensures forall k :: i <= k < j ==> IsIdChar(s[k])
    ensures j == |s| || !IsIdChar(s[j])
    decreases |s| - i
  {
    if i < |s| && IsIdChar(s[i]) then IdRunEnd(s, i + 1) else i
  }

  /** Index of the first '>' at or after `i`, or |s| when there is none. */
  function NextClose(s: string, i: nat): (j: nat)
    requires i <= |s|
    ensures i <= j <= |s|
    ensures forall k :: i <= k < j ==> s[k] != '>'
    ensures j == |s| || s[j] == '>'
    decreases |s| - i
  {
    if i == |s| || s[i] == '>' then i else NextClose(s, i + 1)
  }

  /** The scanner's test at offset `p`: "<@", a non-empty id run, and a '>' somewhere after it. */
  predicate MentionAt(s: string, p: nat)
  {
    p + 2 <= |s| && s[p] == '<' && s[p + 1] == '@'
    && IdRunEnd(s, p + 2) > p + 2 && NextClose(s, IdRunEnd(s, p + 2)) < |s|
  }

  /**
   * The regular expression read as a language: at offset `p`, "<@", then
   * group 1 of id characters ending at `g`, then either nothing or a run of
   * characters other than '>', then '>'.
   */
  ghost predicate PatternMatchAt(s: string, p: nat, g: nat)
  {
    p + 2 < g <= |s| && s[p] == '<' && s[p + 1] == '@'
    && (forall k :: p + 2 <= k < g ==> IsIdChar(s[k]))
    && exists j :: g <= j < |s| && s[j] == '>' && forall k :: g <= k < j ==> s[k] != '>'
  }

  /**
   * The scanner's test agrees with the pattern, and the group the greedy
   * `+` keeps, the longest one that still lets the rest match, is the
   * maximal id run.
   */
  lemma MentionAtIsPattern(s: string, p: nat)
    ensures MentionAt(s, p) <==> exists g :: PatternMatchAt(s, p, g)
    ensures MentionAt(s, p) ==> PatternMatchAt(s, p, IdRunEnd(s, p + 2))
    ensures forall g: nat :: PatternMatchAt(s, p, g) ==> g <= IdRunEnd(s, p + 2)
  {
    if MentionAt(s, p) {
      var e := IdRunEnd(s, p + 2);
      assert PatternMatchAt(s, p, e) by {
        var j := NextClose(s, e);
        assert e <= j < |s| && s[j] == '>' && forall k :: e <= k < j ==> s[k] != '>';
      }
    }
    forall g: nat | PatternMatchAt(s, p, g)
      ensures g <= IdRunEnd(s, p + 2) && MentionAt(s, p)
    {
      var e := IdRunEnd(s, p + 2);
      var j :| g <= j < |s| && s[j] == '>' && forall k :: g <= k < j ==> s[k] != '>';
      assert NextClose(s, e) <= j;
    }
  }

  /** The leftmost offset at or after `i` where the pattern matches. */
  function MentionFrom(s: string, i: nat): (r: Option<nat>)
    requires i <= |s|
    ensures r.Some? ==> i <= r.value < |s| && MentionAt(s, r.value)
    ensures r.Some? ==> forall q :: i <= q < r.value ==> !MentionAt(s, q)
    ensures r.None? ==> forall q :: i <= q ==> !MentionAt(s, q)
    decreases |s| - i
  {
    if i == |s| then None
    else if MentionAt(s, i) then Some(i)
    else MentionFrom(s, i + 1)
  }

  /** The search passes over offsets where no mention starts. */
  lemma {:induction false} MentionFromSkips(s: string, i: nat, p: nat)
    requires i <= p <= |s|
    requires forall q :: i <= q < p ==> !MentionAt(s, q)
    ensures MentionFrom(s, i) == MentionFrom(s, p)
    decreases p - i
  {
    if i < p {
      assert !MentionAt(s, i);
      assert MentionFrom(s, i) == MentionFrom(s, i + 1);
      MentionFromSkips(s, i + 1, p);
    }
  }

  /** reAtMention.FindStringSubmatch(text)[1]: the id captured by the leftmost match, if any. */
  function LeftmostMention(s: string): Option<string>
  {
    match MentionFrom(s, 0)
    case None => None
    case Some(p) => Some(s[p + 2..IdRunEnd(s, p + 2)])
  }

  /** What leftmost-first matching of the pattern captures: the earliest offset, the longest group. */
  ghost predicate RegexCaptures(s: string, id: string)
  {
    exists p: nat, g: nat ::
      PatternMatchAt(s, p, g)
      && (forall q: nat, h: nat :: q < p ==> !PatternMatchAt(s, q, h))
      && (forall h: nat :: PatternMatchAt(s, p, h) ==> h <= g)
      && id == s[p + 2..g]
  }

  /** The scanner answers what the regular expression answers. */
  lemma {:induction false} LeftmostMentionIsRegexMatch(s: string)
    ensures LeftmostMention(s).None? <==> forall p: nat, g: nat :: !PatternMatchAt(s, p, g)
    ensures LeftmostMention(s).Some? ==> RegexCaptures(s, LeftmostMention(s).value)
  {
    match MentionFrom(s, 0)
    case None =>
      forall p: nat, g: nat
        ensures !PatternMatchAt(s, p, g)
      {
        MentionAtIsPattern(s, p);
      }
    case Some(p) =>
      MentionAtIsPattern(s, p);
      var g := IdRunEnd(s, p + 2);
      assert PatternMatchAt(s, p, g);
      forall q: nat, h: nat | q < p
        ensures !PatternMatchAt(s, q, h)
      {
        MentionAtIsPattern(s, q);
      }
      assert LeftmostMention(s) == Some(s[p + 2..g]);
      assert RegexCaptures(s, s[p + 2..g]) by {
        assert PatternMatchAt(s, p, g)
          && (forall q: nat, h: nat :: q < p ==> !PatternMatchAt(s, q, h))
          && (forall h: nat :: PatternMatchAt(s, p, h) ==> h <= g);
      }
  }

  /** applyMentionsMe's rule: a private message, or a leftmost mention naming `selfId`. */
  predicate MentionsSelf(m: Msg, selfId: string)
  {
    IsPrivate(m) || LeftmostMention(m.text) == Some(selfId)
  }

  /** applyFromMe's rule: a non-empty author equal to `selfId`. */
  predicate FromSelf(m: Msg, selfId: string)
  {
    m.user != "" && m.user == selfId
  }

  /** message_test.go: the public message that mentions the mocked bot U2147483697. */
  lemma PublicMentionOfSelf()
    ensures MentionsSelf(Msg("", "This is a test. <@U2147483697>", "U2147483697", "C2147483705", "", "", ""), "U2147483697")
  {
    var pre, id := "This is a test. ", "U2147483697";
    assert "This is a test. <@U2147483697>" == pre + "<@" + id + ">";
    MentionAfterPlainText(pre, id);
  }

  /** Text free of '<' followed by "<@id>" mentions exactly that id. */
  lemma MentionAfterPlainText(pre: string, id: string)
    requires forall k :: 0 <= k < |pre| ==> pre[k] != '<'
    requires id != [] && forall k :: 0 <= k < |id| ==> IsIdChar(id[k])
    ensures LeftmostMention(pre + "<@" + id + ">") == Some(id)
  {
    var s := pre + "<@" + id + ">";
    var p := |pre|;
    assert forall q :: 0 <= q < p ==> s[q] != '<';
    MentionFromSkips(s, 0, p);
    var e := IdRunEnd(s, p + 2);
    assert s[p + 2 + |id|] == '>';
    assert e == p + 2 + |id|;
    assert MentionAt(s, p);
    assert s[p + 2..p + 2 + |id|] == id;
  }

  /** Only the leftmost mention counts: a self-mention after someone else's does not. */
  lemma LaterSelfMentionIgnored()
    ensures !MentionsSelf(Msg("", "<@U1> <@U97>", "U1", "C05", "", "", ""), "U97")
  {
    var s := "<@U1> <@U97>";
    assert IdRunEnd(s, 2) == 4;
    assert MentionAt(s, 0);
    assert s[2..4] == "U1";
  }

  /** A pattern with no closing '>' never matches. */
  lemma UnclosedMentionIgnored()
    ensures LeftmostMention("<@U97").None?
  {
    var s := "<@U97";
    assert IdRunEnd(s, 2) == 5;
    assert !MentionAt(s, 0);
    assert MentionFrom(s, 1) == None;
  }

  // ---------------------------------------------------------------------
  // The Message object

  /**
   * Message: a received slack.Msg plus what the bot works out about it.
   * The `Match` field that a listener's regular expression fills is not
   * part of this model.
   */
  class Message {
    var msg: Msg
    var subMessage: Option<Msg>
    var mentionsMe: bool
    var isEdit: bool
    var fromMe: bool
    var fromUser: Option<User>
    var fromChannel: Option<Channel>

    constructor (m: Msg, sub: Option<Msg>)
      ensures msg == m && subMessage == sub
      ensures !mentionsMe && !isEdit && !fromMe && fromUser == None && fromChannel == None
    {
      msg, subMessage := m, sub;
      mentionsMe, isEdit, fromMe := false, false, false;
      fromUser, fromChannel := None, None;
    }

    /** applyMentionsMe: sets MentionsMe when the rule holds; never clears it. */
    method ApplyMentionsMe(selfId: string)
      modifies this`mentionsMe
      ensures mentionsMe == (old(mentionsMe) || MentionsSelf(msg, selfId))
    {
      if IsPrivate(msg) {
        mentionsMe := true;
      }
      var m := LeftmostMention(msg.text);
      if m.Some? && m.value == selfId {
        mentionsMe := true;
      }
    }

    /** applyFromMe: sets FromMe when the author is the bot; never clears it. */
    method ApplyFromMe(selfId: string)
      modifies this`fromMe
      ensures fromMe == (old(fromMe) || FromSelf(msg, selfId))
    {
      if msg.user != "" && msg.user == selfId {
        fromMe := true;
      }
    }
  }

  /**
   * The Msg the Message built for a message event carries: for a
   * "message_changed" event the text is the edited one from the sub-message;
   * every other field, the author included, is the outer event's.
   */
  function EditedMsg(m: Msg, sub: Option<Msg>): (n: Msg)
    requires m.subType == "message_changed" ==> sub.Some?
    ensures n.text == (if m.subType == "message_changed" then sub.value.text else m.text)
    ensures n.(text := m.text) == m
  {
    if m.subType == "message_changed" then m.(text := sub.value.text) else m
  }

  /** The user id handleRTMEvent resolves FromUser with: an edit's author is the sub-message's. */
  function AuthorId(m: Msg, sub: Option<Msg>): string
    requires m.subType == "message_changed" ==> sub.Some?
  {
    if m.subType == "message_changed" then sub.value.user else m.user
  }

  /**
   * An edit is judged on its new text for mentions, but FromMe still looks
   * at the outer event's User, not at the sub-message's author.
   */
  lemma EditJudgedOnNewText(m: Msg, sub: Msg, selfId: string)
    requires m.subType == "message_changed"
    ensures MentionsSelf(EditedMsg(m, Some(sub)), selfId)
        <==> IsPrivate(m) || LeftmostMention(sub.text) == Some(selfId)
    ensures FromSelf(EditedMsg(m, Some(sub)), selfId) <==> FromSelf(m, selfId)
    ensures AuthorId(m, Some(sub)) == sub.user
  {
  }

  // ---------------------------------------------------------------------
  // Replies

  /** Reply's destination: the channel when there is one, otherwise the author. */
  function ReplyTarget(m: Msg): (to: string)
    ensures to == m.channel || (m.channel == "" && to == m.user)
    ensures to != "" || (m.channel == "" && m.user == "")
  {
    if m.channel != "" then m.channel else m.user
  }

  /** Format with no extra arguments hands back its format string untouched. */
  function Format(s: string): (r: string)
    ensures r == s
  {
    s
  }

  /**
   * The text ReplyMention sends: "<@name> " before the reply in a public
   * conversation with a resolved author, the bare reply otherwise.
   */
  function ReplyMentionText(m: Msg, fromUser: Option<User>, text: string): (r: string)
    ensures |r| >= |text| && r[|r| - |text|..] == text
    ensures r != text <==> !IsPrivate(m) && fromUser.Some?
    ensures r != text ==> r == "<@" + fromUser.value.name + "> " + text
  {
    var prefix := if !IsPrivate(m) && fromUser.Some? then "<@" + fromUser.value.name + "> " else "";
    Format(prefix + text)
  }
}
