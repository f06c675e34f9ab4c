/**
 One bump on Mipped: page, token, POST, with at most one fresh login in between. The server is an arbitrary
 function of everything it has been sent, so it may change its mind between any two requests.
 */
module Relogin {
  import opened Types

  datatype Request = GetPage | PostUp | GetLogin | PostLogin

  /** What the JSON answer to a POST says. */
  datatype Verdict = Verdict(ok: bool, auth: bool, message: string, wait: Option<Time>)

  /** How a response reads: a transport error, or a body. It came after a redirect to the login address; it is
      a login form; it holds a token; it is HTML; with it the jar holds the user cookie; it decodes as JSON.
      No combination is excluded. */
  datatype Response =
    | NetError
    | Body(redirected: bool, loginForm: bool, token: bool, html: bool, user: bool, verdict: Option<Verdict>)

  datatype Error = NeedLogin | AuthFailed | Other

  datatype Result = Done(ok: bool, message: string, retryAfter: Time) | Failed(error: Error)

  type Server = seq<Request> -> Response

  function NumOf(sent: seq<Request>, r: Request): nat {
    if sent == [] then 0 else NumOf(sent[..|sent| - 1], r) + if sent[|sent| - 1] == r then 1 else 0
  }

  /** How many POSTs the server answered with a success. */
  function Accepted(server: Server, sent: seq<Request>): nat {
    if sent == [] then 0
    else Accepted(server, sent[..|sent| - 1]) + if IsAccept(server, sent) then 1 else 0
  }

  predicate IsAccept(server: Server, sent: seq<Request>)
    requires sent != []
  {
    var a := server(sent);
    sent[|sent| - 1].PostUp? && a.Body? && !a.html && a.verdict.Some? && a.verdict.value.ok
  }

  /** The last answer settles the bump, one way or the other. */
  predicate Settled(server: Server, sent: seq<Request>)
    requires sent != []
  {
    var a := server(sent);
    && sent[|sent| - 1].PostUp? && a.Body? && !a.html
    && a.verdict.Some? && (a.verdict.value.ok || !a.verdict.value.auth)
  }

  /** What a settled bump reports. */
  function Report(v: Verdict): Result {
    if v.ok then Done(true, "bumped", 0)
    else Done(false, if v.message == "" then "bump rejected" else v.message, if v.wait.Some? then v.wait.value else 0)
  }

  /** The answer to a page or POST request sends the client to the login form. */
  predicate Expired(r: Request, a: Response) {
    match r
    case GetPage => a.Body? && (a.redirected || a.loginForm || !a.token)
    case PostUp =>
      a.Body? && if a.html then a.loginForm else a.verdict.Some? && !a.verdict.value.ok && a.verdict.value.auth
    case _ => false
  }

  /** The server turned the credentials down. */
  predicate Denied(r: Request, a: Response) {
    r.PostLogin? && a.Body? && !a.user
  }

  /** What the answers mean, reading by reading. A page asks for a login after a redirect, as a login form, or when it
      has no token; an answer to the POST does as a login form or with a verdict that says so. The POST is settled by
      any other verdict: as a success, or as a rejection with its message, or a stock one, and its wait, if any. A
      login is turned down when no user cookie came with it. */
  lemma WhatAnswersMean(server: Server, sent: seq<Request>)
    requires sent != []
    ensures var r, a := sent[|sent| - 1], server(sent);
      && (a.NetError? ==> !Expired(r, a) && !Denied(r, a) && !Settled(server, sent) && !IsAccept(server, sent))
      && (a.Body? && r == GetPage ==> (Expired(r, a) <==> a.redirected || a.loginForm || !a.token))
      && (a.Body? && r == PostUp && a.html ==> (Expired(r, a) <==> a.loginForm) && !Settled(server, sent))
      && (a.Body? && r == PostUp && !a.html && a.verdict.None? ==> !Expired(r, a) && !Settled(server, sent))
      && (a.Body? && r == PostUp && !a.html && a.verdict.Some? ==>
            match a.verdict.value
            case Verdict(true, _, _, _) =>
              !Expired(r, a) && IsAccept(server, sent) && Settled(server, sent) && Report(a.verdict.value) == Done(true, "bumped", 0)
            case Verdict(false, true, _, _) => Expired(r, a) && !IsAccept(server, sent) && !Settled(server, sent)
            case Verdict(false, false, message, wait) =>
              && !Expired(r, a) && !IsAccept(server, sent) && Settled(server, sent)
              && Report(a.verdict.value) ==
                 Done(false, if |message| == 0 then "bump rejected" else message, match wait case None => 0 case Some(d) => d))
      && (a.Body? ==> (Denied(r, a) <==> r == PostLogin && !a.user))
      && (r == GetLogin || r == PostLogin ==> !Expired(r, a) && !Settled(server, sent) && !IsAccept(server, sent))
  {
  }

  lemma Appended(server: Server, sent: seq<Request>, r: Request)
    ensures NumOf(sent + [r], r) == NumOf(sent, r) + 1
    ensures forall q :: q != r ==> NumOf(sent + [r], q) == NumOf(sent, q)
    ensures Accepted(server, sent + [r]) == Accepted(server, sent) + if IsAccept(server, sent + [r]) then 1 else 0
  {
    assert (sent + [r])[..|sent|] == sent;
  }

  /** `ready`: the reference parses, the session opens and the credentials decode. `canLogin`: a login and a
      password are stored. */
  class Client {
    const server: Server
    const ready: bool
    const canLogin: bool
    var sent: seq<Request>

    constructor (server: Server, ready: bool, canLogin: bool)
      ensures this.server == server && this.ready == ready && this.canLogin == canLogin && sent == []
    {
      this.server, this.ready, this.canLogin, this.sent := server, ready, canLogin, [];
    }

    method Send(r: Request) returns (a: Response)
      modifies this
      ensures sent == old(sent) + [r] && a == server(sent)
    {
      sent := sent + [r];
      a := server(sent);
    }

    method BumpOnce() returns (res: Result)
      modifies this
      ensures sent == old(sent) + [GetPage] || sent == old(sent) + [GetPage] + [PostUp]
      ensures !(res.Failed? && res.error.AuthFailed?)
      ensures res == Failed(NeedLogin) <==> Expired(sent[|sent| - 1], server(sent))
      ensures res.Done? <==> Settled(server, sent)
      ensures res.Done? ==> res == Report(server(sent).verdict.value)
    {
      var page := Send(GetPage);
      if page.NetError? {
        return Failed(Other);
      }
      if page.redirected || page.loginForm {
        return Failed(NeedLogin);
      }
      if !page.token {
        return Failed(NeedLogin);
      }
      var up := Send(PostUp);
      if up.NetError? {
        return Failed(Other);
      }
      if up.html {
        if up.loginForm {
          return Failed(NeedLogin);
        }
        return Failed(Other);
      }
      if up.verdict.None? {
        return Failed(Other);
      }
      var v := up.verdict.value;
      if v.ok {
        return Done(true, "bumped", 0);
      }
      var msg := if v.message == "" then "bump rejected" else v.message;
      if v.auth {
        return Failed(NeedLogin);
      }
      if v.wait.Some? {
        return Done(false, msg, v.wait.value);
      }
      return Done(false, msg, 0);
    }

    /** None when the login went through. */
    method Login() returns (err: Option<Error>)
      modifies this
      ensures sent == old(sent) + (if !canLogin then [] else if |sent| == |old(sent)| + 1 then [GetLogin] else [GetLogin, PostLogin])
      ensures err != Some(NeedLogin)
      ensures err == None ==> |sent| == |old(sent)| + 2
      ensures err == Some(AuthFailed) <==> !canLogin || Denied(sent[|sent| - 1], server(sent))
    {
      if !canLogin {
        return Some(AuthFailed);
      }
      var form := Send(GetLogin);
      if form.NetError? {
        return Some(Other);
      }
      var post := Send(PostLogin);
      if post.NetError? {
        return Some(Other);
      }
      if post.user {
        return None;
      }
      return Some(AuthFailed);
    }

    /** For every server: at most two pages, two POSTs and one login; at most one accepted bump, and it is
        reported as a success exactly then; the internal need-login error never gets out; and refused
        credentials are reported exactly when the login was refused (or is not possible) or the request
        after a login still asks for one. */
    method Bump() returns (res: Result)
      requires sent == []
      modifies this
      ensures Within(server, sent, 2, 1)
      ensures (res.Done? && res.ok) <==> Accepted(server, sent) == 1
      ensures res.Done? <==> sent != [] && Settled(server, sent)
      ensures res.Done? ==> res == Report(server(sent).verdict.value)
      ensures res != Failed(NeedLogin)
      ensures res == Failed(AuthFailed) <==>
                sent != [] && (Denied(sent[|sent| - 1], server(sent)) || Expired(sent[|sent| - 1], server(sent)))
    {
      if !ready {
        return Failed(Other);
      }
      res := BumpOnce();
      CycleCounts(server, [], sent);
      if res == Failed(NeedLogin) {
        res := LoginAndRetry();
      }
    }

    /** A login and a second cycle. */
    method LoginAndRetry() returns (res: Result)
      requires sent != [] && Expired(sent[|sent| - 1], server(sent)) && Within(server, sent, 1, 0) && Accepted(server, sent) == 0
      modifies this
      ensures sent != [] && Within(server, sent, 2, 1)
      ensures Accepted(server, sent) == if res.Done? && res.ok then 1 else 0
      ensures res.Done? <==> Settled(server, sent)
      ensures res.Done? ==> res == Report(server(sent).verdict.value)
      ensures res != Failed(NeedLogin)
      ensures res == Failed(AuthFailed) <==>
                Denied(sent[|sent| - 1], server(sent)) || Expired(sent[|sent| - 1], server(sent))
    {
      ghost var first := sent;
      var err := Login();
      LoginCounts(server, first, sent);
      if err.Some? {
        return Failed(err.value);
      }
      ghost var second := sent;
      res := BumpOnce();
      CycleCounts(server, second, sent);
      if res == Failed(NeedLogin) {
        return Failed(AuthFailed);
      }
    }
  }

  /** At most `cycles` pages and POSTs, `logins` logins, and one accepted bump. */
  ghost predicate Within(server: Server, sent: seq<Request>, cycles: nat, logins: nat) {
    && NumOf(sent, GetPage) <= cycles && NumOf(sent, PostUp) <= cycles
    && NumOf(sent, GetLogin) <= logins && NumOf(sent, PostLogin) <= logins
    && Accepted(server, sent) <= 1
  }

  lemma CycleCounts(server: Server, before: seq<Request>, after: seq<Request>)
    requires after == before + [GetPage] || after == before + [GetPage] + [PostUp]
    ensures NumOf(after, GetPage) == NumOf(before, GetPage) + 1 && NumOf(after, PostUp) <= NumOf(before, PostUp) + 1
    ensures NumOf(after, GetLogin) == NumOf(before, GetLogin) && NumOf(after, PostLogin) == NumOf(before, PostLogin)
    ensures Accepted(server, after) == Accepted(server, before) + if IsAccept(server, after) then 1 else 0
  {
    Appended(server, before, GetPage);
    Appended(server, before + [GetPage], PostUp);
  }

  lemma LoginCounts(server: Server, before: seq<Request>, after: seq<Request>)
    requires after == before || after == before + [GetLogin] || after == before + [GetLogin, PostLogin]
    ensures NumOf(after, GetPage) == NumOf(before, GetPage) && NumOf(after, PostUp) == NumOf(before, PostUp)
    ensures NumOf(after, GetLogin) <= NumOf(before, GetLogin) + 1 && NumOf(after, PostLogin) <= NumOf(before, PostLogin) + 1
    ensures Accepted(server, after) == Accepted(server, before)
  {
    Appended(server, before, GetLogin);
    Appended(server, before + [GetLogin], PostLogin);
    assert before + [GetLogin, PostLogin] == before + [GetLogin] + [PostLogin];
  }
}
