/**
  The `/out` route: the validator shared by GET and POST, the fan-out over
  the requested tokens, and the two handlers.
*/
module Relay {
  import opened Wrappers
  import opened Compose
  import opened Recipients

  /** The `user` query parameter: absent, one string, or a list (a repeated parameter). */
  datatype UserParam = NoUser | OneUser(name: string) | UserList(names: seq<string>)

  /** The query parameters the route reads. */
  datatype Query = Query(title: Option<string>, message: Option<string>, url: Option<string>, user: UserParam)

  const NO_CONTENT := 204
  const BAD_REQUEST := 400

  /** JavaScript truthiness of `user`: a non-empty string, or any list, even an empty one. */
  predicate UserGiven(u: UserParam) {
    u.UserList? || (u.OneUser? && |u.name| > 0)
  }

  /**
    The `app.all('/out')` middleware: 400 without a title and a message, 400
    without a user, otherwise the token list, a single string becoming a
    one-element list.
  */
  function Validate(q: Query): (r: Result<seq<string>, int>)
    ensures r.Failure? <==> (!Truthy(q.title) && !Truthy(q.message)) || !UserGiven(q.user)
    ensures r.Failure? ==> r.error == BAD_REQUEST
    ensures r.Success? && q.user.OneUser? ==> r.value == [q.user.name]
    ensures r.Success? && q.user.UserList? ==> r.value == q.user.names
  {
    if !Truthy(q.message) && !Truthy(q.title) then Failure(BAD_REQUEST)
    else
      match q.user
      case NoUser => Failure(BAD_REQUEST)
      case OneUser(name) => if |name| == 0 then Failure(BAD_REQUEST) else Success([name])
      case UserList(names) => Success(names)
  }

  // ---------------------------------------------------------------------------
  // Fan-out

  /** Reference definition: the listed tokens that are keys of the directory, in list order, repeats kept. */
  function KnownTokens(users: map<string, Entry>, tokens: seq<string>): (known: seq<string>)
    ensures |known| <= |tokens|
    ensures forall t :: t in known ==> t in users && t in tokens
  {
    if |tokens| == 0 then []
    else
      var last := tokens[|tokens| - 1];
      KnownTokens(users, tokens[..|tokens| - 1]) + (if last in users then [last] else [])
  }

  /** The sends of the fan-out loop over `tokens`, in the order the loop issues them. */
  function Deliveries(users: map<string, Entry>, tokens: seq<string>, text: string): (sends: seq<Send>)
    ensures |sends| <= |tokens|
    ensures forall s :: s in sends ==> s.text == text && s.markdown
  {
    if |tokens| == 0 then []
    else
      var last := tokens[|tokens| - 1];
      Deliveries(users, tokens[..|tokens| - 1], text)
      + (if last in users then [Send(users[last].chatId, text, true)] else [])
  }

  /** One send per known token occurrence, in list order, to that token's chat, all with the same text. */
  lemma {:induction false} DeliveriesFollowKnownTokens(users: map<string, Entry>, tokens: seq<string>, text: string)
    ensures |Deliveries(users, tokens, text)| == |KnownTokens(users, tokens)|
    ensures forall i :: 0 <= i < |KnownTokens(users, tokens)| ==>
              KnownTokens(users, tokens)[i] in users
              && Deliveries(users, tokens, text)[i] == Send(users[KnownTokens(users, tokens)[i]].chatId, text, true)
  {
    if |tokens| > 0 {
      DeliveriesFollowKnownTokens(users, tokens[..|tokens| - 1], text);
    }
  }

  /** Each known token is kept as often as it is listed, and unknown tokens are dropped. */
  lemma {:induction false} KnownTokensOccurrences(users: map<string, Entry>, tokens: seq<string>)
    ensures forall t :: multiset(KnownTokens(users, tokens))[t] == if t in users then multiset(tokens)[t] else 0
  {
    if |tokens| > 0 {
      var init := tokens[..|tokens| - 1];
      var last := tokens[|tokens| - 1];
      KnownTokensOccurrences(users, init);
      assert tokens == init + [last];
      assert multiset(tokens) == multiset(init) + multiset{last};
    }
  }

  /** Filtering commutes with concatenation: no deduplication across the list. */
  lemma {:induction false} KnownTokensAppend(users: map<string, Entry>, a: seq<string>, b: seq<string>)
    ensures KnownTokens(users, a + b) == KnownTokens(users, a) + KnownTokens(users, b)
  {
    if |b| == 0 {
      assert a + b == a;
    } else {
      var init := b[..|b| - 1];
      KnownTokensAppend(users, a, init);
      assert (a + b)[..|a + b| - 1] == a + init;
    }
  }

  /** A token listed twice is delivered to twice. */
  lemma RepeatedTokenSentTwice(users: map<string, Entry>, token: string, text: string)
    requires token in users
    ensures Deliveries(users, [token, token], text)
         == [Send(users[token].chatId, text, true), Send(users[token].chatId, text, true)]
  {
  }

  /** Nothing is sent exactly when no listed token is known. */
  lemma {:induction false} NoDeliveriesIffNoneKnown(users: map<string, Entry>, tokens: seq<string>, text: string)
    ensures Deliveries(users, tokens, text) == [] <==> forall i :: 0 <= i < |tokens| ==> tokens[i] !in users
  {
    if |tokens| > 0 {
      var init := tokens[..|tokens| - 1];
      NoDeliveriesIffNoneKnown(users, init, text);
      assert forall i :: 0 <= i < |init| ==> init[i] == tokens[i];
    }
  }

  /**
    The loop of either handler: skip tokens missing from the directory, send
    the text to every other token's chat, and note whether anything was sent.
  */
  method FanOut(users: map<string, Entry>, tokens: seq<string>, text: string)
      returns (sends: seq<Send>, messageSent: bool)
    ensures sends == Deliveries(users, tokens, text)
    ensures messageSent <==> exists i :: 0 <= i < |tokens| && tokens[i] in users
  {
    sends := [];
    messageSent := false;
    for i := 0 to |tokens|
      invariant sends == Deliveries(users, tokens[..i], text)
      invariant messageSent <==> exists j :: 0 <= j < i && tokens[j] in users
    {
      assert tokens[..i + 1][..i] == tokens[..i];
      if tokens[i] !in users {
        continue;
      }
      messageSent := true;
      sends := sends + [Send(users[tokens[i]].chatId, text, true)];
    }
    assert tokens[..|tokens|] == tokens;
  }

  /** The response of a handler whose fan-out has run: 204 when something was sent, 400 otherwise. */
  function Status(messageSent: bool): (status: int)
    ensures status == NO_CONTENT <==> messageSent
    ensures status == BAD_REQUEST <==> !messageSent
  {
    if messageSent then NO_CONTENT else BAD_REQUEST
  }

  // ---------------------------------------------------------------------------
  // The handlers

  /** Validation, then the GET handler: message, URL, fan-out, status. */
  method HandleGet(users: map<string, Entry>, q: Query) returns (status: int, sends: seq<Send>)
    ensures Validate(q).Failure? ==> status == BAD_REQUEST && sends == []
    ensures Validate(q).Success? ==>
              sends == Deliveries(users, Validate(q).value, GetText(q.title, q.message, q.url))
    ensures status == NO_CONTENT <==>
              Validate(q).Success? && exists i :: 0 <= i < |Validate(q).value| && Validate(q).value[i] in users
    ensures status == NO_CONTENT || status == BAD_REQUEST
  {
    var checked := Validate(q);
    if checked.Failure? {
      return checked.error, [];
    }
    var text := BuildMessage(q.title, q.message);
    if Truthy(q.url) {
      text := text + "\n" + q.url.value;
    }
    var messageSent;
    sends, messageSent := FanOut(users, checked.value, text);
    status := Status(messageSent);
  }

  /** The text of the POST handler: message, the code block from the body, URL. */
  method ComposePost(q: Query, code: Option<string>) returns (text: string)
    ensures text == PostText(q.title, q.message, code, q.url)
  {
    text := BuildMessage(q.title, q.message);
    if Truthy(code) {
      var formatted := UnescapeNewlines(code.value);
      formatted := ReplaceChar(formatted, '"', '"');
      assert text + "\n```\n" + formatted + "\n```" == text + "\n" + CodeBlock(code.value);
      text := text + "\n```\n" + formatted + "\n```";
    }
    if Truthy(q.url) {
      text := text + "\n" + q.url.value;
    }
  }

  /**
    Validation, then the POST handler: text, fan-out, status. The status
    follows the GET rule; `HandlePostAsWritten` is what the handler as
    written answers (see Findings).
  */
  method HandlePost(users: map<string, Entry>, q: Query, code: Option<string>) returns (status: int, sends: seq<Send>)
    ensures Validate(q).Failure? ==> status == BAD_REQUEST && sends == []
    ensures Validate(q).Success? ==>
              sends == Deliveries(users, Validate(q).value, PostText(q.title, q.message, code, q.url))
    ensures status == NO_CONTENT <==>
              Validate(q).Success? && exists i :: 0 <= i < |Validate(q).value| && Validate(q).value[i] in users
    ensures status == NO_CONTENT || status == BAD_REQUEST
  {
    var checked := Validate(q);
    if checked.Failure? {
      return checked.error, [];
    }
    var text := ComposePost(q, code);
    var messageSent;
    sends, messageSent := FanOut(users, checked.value, text);
    status := Status(messageSent);
  }

  // ---------------------------------------------------------------------------
  // The POST status as written

  /** What the POST handler as written does after its loop. */
  datatype PostReply = Replied(status: int) | ThrowsReferenceError

  /**
    The POST handler never declares `messageSent`: its loop assigns `true` to
    a global of that name, and its final test reads that global. `defined`
    says whether any earlier POST created the global; the second component of
    the result is whether it exists afterwards.
  */
  function PostReplyAsWritten(messageSent: bool, defined: bool): (r: (PostReply, bool))
    ensures r.1 <==> defined || messageSent
    ensures r.0 == ThrowsReferenceError <==> !defined && !messageSent
    ensures r.0 != Replied(BAD_REQUEST)
  {
    if defined || messageSent then (Replied(NO_CONTENT), true) else (ThrowsReferenceError, false)
  }

  /**
    Validation, then the POST handler as written. `defined` says whether the
    global `messageSent` exists when the request arrives, `definedAfter`
    whether it exists afterwards. A request the validator refuses never
    reaches the handler and leaves the global as it was.
  */
  method HandlePostAsWritten(users: map<string, Entry>, q: Query, code: Option<string>, defined: bool)
      returns (reply: PostReply, sends: seq<Send>, definedAfter: bool)
    ensures Validate(q).Failure? ==> reply == Replied(BAD_REQUEST) && sends == [] && definedAfter == defined
    ensures Validate(q).Success? ==>
              && sends == Deliveries(users, Validate(q).value, PostText(q.title, q.message, code, q.url))
              && (reply, definedAfter)
                 == PostReplyAsWritten(exists i :: 0 <= i < |Validate(q).value| && Validate(q).value[i] in users, defined)
    ensures Validate(q).Success? ==> reply != Replied(BAD_REQUEST)
  {
    var checked := Validate(q);
    if checked.Failure? {
      return Replied(checked.error), [], defined;
    }
    var text := ComposePost(q, code);
    var messageSent;
    sends, messageSent := FanOut(users, checked.value, text);
    var outcome := PostReplyAsWritten(messageSent, defined);
    reply, definedAfter := outcome.0, outcome.1;
  }

  /**
    Concrete runs against a directory holding only the token "known". On a
    fresh process a POST to the unknown token "stranger" throws. A POST to
    "known" creates the global, and from then on a POST to "stranger" answers
    204 although nothing was sent. The GET handler answers 400 to the same
    request.
  */
  method PostStatusCounterexample()
      returns (onFresh: PostReply, reached: PostReply, stale: PostReply, staleSends: seq<Send>, getStatus: int)
    ensures onFresh == ThrowsReferenceError
    ensures reached == Replied(NO_CONTENT)
    ensures stale == Replied(NO_CONTENT) && staleSends == []
    ensures getStatus == BAD_REQUEST
  {
    var users := map["known" := Entry(1, Some("alice"))];
    var toStranger := Query(Some("Build"), Some("failed"), None, OneUser("stranger"));
    var toKnown := Query(Some("Build"), Some("failed"), None, OneUser("known"));
    var sends, defined;
    onFresh, sends, defined := HandlePostAsWritten(users, toStranger, None, false);
    assert Validate(toKnown).value[0] in users;
    reached, sends, defined := HandlePostAsWritten(users, toKnown, None, false);
    stale, staleSends, defined := HandlePostAsWritten(users, toStranger, None, defined);
    getStatus, sends := HandleGet(users, toStranger);
  }
}
