/** Session ids and the legacy conversation bridge (backend/session_identity.py). */
module SessionIdentity {
  import opened Text

  const SESSION_MAIN_ID := "agent:main:main"
  const CANONICAL_PREFIX := "agent:main:"
  const LEGACY_PREFIX := "agent:main:web:legacy:conversation:"

  datatype Identity = Identity(channel: string, account: string, chatType: string, peerId: string) {
    function ToSessionId(): string {
      "agent:main:" + channel + ":" + account + ":" + chatType + ":" + peerId
    }
  }

  function ConversationIdToSessionId(conversationId: string): string {
    var normalized := Strip(conversationId);
    if normalized == "" then SESSION_MAIN_ID
    else Identity("web", "legacy", "conversation", normalized).ToSessionId()
  }

  function SessionIdToConversationId(sessionId: string): Option<string> {
    var raw := Strip(sessionId);
    if raw == "" || raw == SESSION_MAIN_ID then None
    else
      var parts := Split(raw);
      if |parts| >= 6 && parts[..3] == ["agent", "main", "web"] && parts[3] == "legacy"
           && parts[4] == "conversation" then
        var joined := Join(parts[5..]);
        if joined == "" then None else Some(joined)
      else None
  }

  function NormalizeOrBridge(sessionId: string, fallback: Option<string>): string {
    var normalized := Strip(sessionId);
    if CANONICAL_PREFIX <= normalized then normalized
    else if normalized != "" then ConversationIdToSessionId(normalized)
    else if fallback.Some? && fallback.value != "" then ConversationIdToSessionId(fallback.value)
    else SESSION_MAIN_ID
  }

  lemma LegacyForm(c: string)
    ensures Identity("web", "legacy", "conversation", c).ToSessionId() == LEGACY_PREFIX + c
  {
    assert "agent:main:" + "web" + ":" + "legacy" + ":" + "conversation" + ":" == LEGACY_PREFIX;
  }

  lemma LegacyPrefixed(c: string)
    ensures LEGACY_PREFIX + c == Prefixed("agent", "main", "web", "legacy", "conversation", c)
  {
    PrefixedAssociative("agent", "main", "web", "legacy", "conversation", c);
    assert LEGACY_PREFIX == Prefixed("agent", "main", "web", "legacy", "conversation", "");
  }

  lemma AcceptedForm(raw: string)
    requires var parts := Split(raw);
      |parts| >= 6 && parts[..3] == ["agent", "main", "web"] && parts[3] == "legacy" && parts[4] == "conversation"
    ensures raw == LEGACY_PREFIX + Join(Split(raw)[5..])
  {
    var parts := Split(raw);
    JoinSplit(raw);
    JoinPrefixed(parts);
    assert parts[..3][0] == parts[0] && parts[..3][1] == parts[1] && parts[..3][2] == parts[2];
    LegacyPrefixed(Join(parts[5..]));
  }

  lemma PrefixSplits(c: string)
    ensures Split(LEGACY_PREFIX + c) == ["agent", "main", "web", "legacy", "conversation"] + Split(c)
    ensures LEGACY_PREFIX + c != SESSION_MAIN_ID
  {
    LegacyPrefixed(c);
    SplitPrefixed("agent", "main", "web", "legacy", "conversation", c);
    assert (LEGACY_PREFIX + c)[11] == 'w' && SESSION_MAIN_ID[11] == 'm';
  }

  /** Exactly which session ids the parser accepts, and what it returns for them. */
  lemma ParserAccepts(sessionId: string, c: string)
    ensures SessionIdToConversationId(sessionId) == Some(c) <==> Strip(sessionId) == LEGACY_PREFIX + c && c != ""
  {
    var raw := Strip(sessionId);
    if SessionIdToConversationId(sessionId) == Some(c) {
      AcceptedForm(raw);
    }
    if raw == LEGACY_PREFIX + c && c != "" {
      PrefixSplits(c);
      JoinSplit(c);
      var parts := Split(raw);
      assert parts[5..] == Split(c);
      assert parts[..3] == ["agent", "main", "web"];
    }
  }

  lemma LegacyStripped(c: string)
    requires Stripped(c) && c != ""
    ensures Stripped(LEGACY_PREFIX + c)
  {
    var s := LEGACY_PREFIX + c;
    assert s[0] == 'a' && s[|s| - 1] == c[|c| - 1];
  }

  /** Printing a conversation id and parsing it back gives the stripped id, colons and inner blanks included. */
  lemma ConversationRoundTrip(c: string)
    ensures SessionIdToConversationId(ConversationIdToSessionId(c)) == if Blank(c) then None else Some(Strip(c))
  {
    var n := Strip(c);
    if n != "" {
      LegacyForm(n);
      LegacyStripped(n);
      ParserAccepts(ConversationIdToSessionId(c), n);
    }
  }

  /** Two conversation ids share a session id exactly when they agree after stripping. */
  lemma BridgeInjective(c: string, d: string)
    ensures ConversationIdToSessionId(c) == ConversationIdToSessionId(d) <==> Strip(c) == Strip(d)
  {
    ConversationRoundTrip(c);
    ConversationRoundTrip(d);
  }

  /**
   * The parser accepts exactly the session ids that go on after the legacy prefix, and printing what it returns gives
   * the (stripped) session id back exactly when the character after the prefix is not blank.
   */
  lemma SessionRoundTrip(sessionId: string)
    ensures var raw := Strip(sessionId);
            var parsed := SessionIdToConversationId(sessionId);
      && (parsed.Some? <==> LEGACY_PREFIX < raw)
      && (LEGACY_PREFIX < raw ==>
            (ConversationIdToSessionId(parsed.value) == raw <==> !IsSpace(raw[|LEGACY_PREFIX|])))
  {
    var raw := Strip(sessionId);
    if LEGACY_PREFIX < raw {
      var c := raw[|LEGACY_PREFIX|..];
      assert raw == LEGACY_PREFIX + c && c[0] == raw[|LEGACY_PREFIX|];
      ParserAccepts(sessionId, c);
      PrintsBack(c);
    }
    if SessionIdToConversationId(sessionId).Some? {
      ParserAccepts(sessionId, SessionIdToConversationId(sessionId).value);
    }
  }

  lemma PrintsBack(c: string)
    requires c != "" && Stripped(LEGACY_PREFIX + c)
    ensures ConversationIdToSessionId(c) == LEGACY_PREFIX + c <==> !IsSpace(c[0])
  {
    LastOfPrefixed(LEGACY_PREFIX, c);
    StripShortens(c);
    LegacyForm(Strip(c));
    PrefixCancels(LEGACY_PREFIX, Strip(c), c);
  }

  /** A conversation part that starts with a blank comes back without it. */
  lemma LeadingBlankLost()
    ensures SessionIdToConversationId(LEGACY_PREFIX + " x") == Some(" x")
    ensures ConversationIdToSessionId(" x") != LEGACY_PREFIX + " x"
  {
    var s := LEGACY_PREFIX + " x";
    assert s[0] == 'a' && s[|s| - 1] == 'x';
    ParserAccepts(s, " x");
    PrintsBack(" x");
  }

  lemma LastOfPrefixed(prefix: string, c: string)
    requires c != "" && Stripped(prefix + c)
    ensures !IsSpace(c[|c| - 1])
  {
    assert (prefix + c)[|prefix + c| - 1] == c[|c| - 1];
  }

  lemma PrefixCancels(prefix: string, c: string, d: string)
    ensures prefix + c == prefix + d <==> c == d
  {
    assert (prefix + c)[|prefix|..] == c && (prefix + d)[|prefix|..] == d;
  }

  lemma StripShortens(c: string)
    requires c != "" && !IsSpace(c[|c| - 1])
    ensures Strip(c) != ""
    ensures if IsSpace(c[0]) then |Strip(c)| < |c| else Strip(c) == c
  {
    if IsSpace(c[0]) {
      assert Strip(c) == Strip(c[1..]);
    }
  }

  lemma BridgedIsCanonical(c: string)
    ensures CANONICAL_PREFIX <= ConversationIdToSessionId(c) && Stripped(ConversationIdToSessionId(c))
  {
    var n := Strip(c);
    if n != "" {
      LegacyForm(n);
      LegacyStripped(n);
      assert CANONICAL_PREFIX <= LEGACY_PREFIX + n;
    }
  }

  /**
   * A canonical id is kept; any other that is not blank, and else a fallback, becomes the session id of the
   * conversation it names; with neither it is the main session.
   */
  lemma NormalizeKeepsOrBridges(sessionId: string, fallback: Option<string>)
    ensures var r := NormalizeOrBridge(sessionId, fallback);
      && (CANONICAL_PREFIX <= Strip(sessionId) ==> r == Strip(sessionId))
      && (!(CANONICAL_PREFIX <= Strip(sessionId)) && !Blank(sessionId) ==>
            SessionIdToConversationId(r) == Some(Strip(sessionId)))
      && (Blank(sessionId) && fallback.Some? && !Blank(fallback.value) ==>
            SessionIdToConversationId(r) == Some(Strip(fallback.value)))
      && (Blank(sessionId) && (fallback.None? || Blank(fallback.value)) ==> r == "agent:main:main")
  {
    ConversationRoundTrip(Strip(sessionId));
    if fallback.Some? { ConversationRoundTrip(fallback.value); }
  }

  /** Normalising always lands in the canonical form, and a second pass (with any fallback) changes nothing. */
  lemma NormalizeIdempotent(sessionId: string, fallback: Option<string>, again: Option<string>)
    ensures var r := NormalizeOrBridge(sessionId, fallback);
            CANONICAL_PREFIX <= r && Stripped(r) && NormalizeOrBridge(r, again) == r
  {
    BridgedIsCanonical(Strip(sessionId));
    if fallback.Some? {
      BridgedIsCanonical(fallback.value);
    }
  }
}
