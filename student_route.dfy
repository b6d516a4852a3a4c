/** The student registration router (src/routes/student/index.js): the
    abuse detector, then a 3-per-minute rate limiter, then the registration
    controller.  The limiter's own window counting is a parameter: `hits`
    is the number of requests the limiter has counted for the key in the
    current window, this one included. */
module StudentRoute {
  import opened Wrappers
  import opened Js
  import opened Pipeline
  import Ddos

  const LimitWindowMs := 60 * 1000
  const LimitMax := 3

  /** `skip`: the limiter is bypassed only outside production and only when
      the x-test-bypass-rl header is exactly 'true'. */
  predicate SkipLimiter(production: bool, bypassHeader: Option<string>) {
    !production && bypassHeader == Some("true")
  }

  /** `retryAfterMs`: time to the window's reset, or a whole window when the
      limiter reports no reset time. */
  function RetryAfterMs(resetTime: Option<int>, now: int): int {
    if resetTime.Some? then resetTime.value - now else LimitWindowMs
  }

  /** `Math.max(1, Math.ceil(retryAfterMs / 1000))` */
  function RemainingSec(retryAfterMs: int): (sec: int)
    ensures sec >= 1
    ensures retryAfterMs <= sec * 1000
    ensures sec == 1 || (sec - 1) * 1000 < retryAfterMs
  {
    Max(1, CeilDiv(retryAfterMs, 1000))
  }

  /** The limiter's rejection. */
  datatype Rejection = Rejection(status: int, message: string, remainingSec: int)

  /** The limiter's `handler`. */
  function LimitHandler(resetTime: Option<int>, now: int): (r: Rejection)
    ensures r.status == 429 && r.remainingSec >= 1
    ensures r.remainingSec * 1000 >= RetryAfterMs(resetTime, now)
  {
    var sec := RemainingSec(RetryAfterMs(resetTime, now));
    Rejection(429, "Bạn đã gửi quá nhiều yêu cầu. Vui lòng chờ "
                   + IntToString(sec) + " giây trước khi gửi lại", sec)
  }

  /** What the limiter does with a request. */
  function LimiterStep(production: bool, bypassHeader: Option<string>, hits: nat): Step {
    if SkipLimiter(production, bypassHeader) || hits <= LimitMax then Next else Respond(429)
  }

  /** What the abuse detector's reply means for the chain. */
  function DdosStep(reply: Ddos.Reply): Step {
    if reply.Rejected? || reply.Blocking? then Respond(429) else Next
  }

  /** `POST /register`: ddosProtection, limiter, registerStudent, in that
      order.  `controllerStatus` is the controller's answer. */
  function RegisterStatus(ddosReply: Ddos.Reply, production: bool, rlHeader: Option<string>, hits: nat,
                          controllerStatus: int): Option<int>
  {
    Run([DdosStep(ddosReply), LimiterStep(production, rlHeader, hits), Respond(controllerStatus)])
  }

  /** Without a reset time the client is told to wait the whole minute. */
  lemma NoResetTimeMeansSixty(now: int)
    ensures LimitHandler(None, now).remainingSec == 60
  {
  }

  /** A reset time already past still yields a wait of one second. */
  lemma PastResetIsOneSecond(resetTime: int, now: int)
    requires resetTime <= now
    ensures LimitHandler(Some(resetTime), now).remainingSec == 1
  {
  }

  /** In production the bypass header has no effect: the first three
      requests of a window reach the controller's turn and every later one is
      refused with 429.  Outside production the header 'true' lets every
      request through, and any other value leaves the limit in force. */
  lemma ThreePerWindow(production: bool, bypassHeader: Option<string>, hits: nat)
    ensures production ==> (LimiterStep(production, bypassHeader, hits) == Next <==> hits <= 3)
    ensures !production && bypassHeader == Some("true") ==> LimiterStep(production, bypassHeader, hits) == Next
    ensures bypassHeader != Some("true") ==> (LimiterStep(production, bypassHeader, hits) == Next <==> hits <= 3)
    ensures LimiterStep(production, bypassHeader, hits) != Next ==> LimiterStep(production, bypassHeader, hits) == Respond(429)
  {
  }

  /** The detector lets a request on to the limiter exactly when it passed
      it (bypassed or counted); a refusal of a blocked client and a new
      block both end the request with 429. */
  lemma DetectorDecides(reply: Ddos.Reply)
    ensures DdosStep(reply) == Next <==> reply.Passed? || reply.Bypassed?
    ensures DdosStep(reply) != Next ==> DdosStep(reply) == Respond(429)
  {
  }

  /** The route's answer: a detector refusal comes first, then the limiter's,
      and the controller decides only when both let the request through. */
  lemma RegisterOrder(ddosReply: Ddos.Reply, production: bool, rlHeader: Option<string>, hits: nat,
                      controllerStatus: int)
    ensures var status := RegisterStatus(ddosReply, production, rlHeader, hits, controllerStatus);
            (DdosStep(ddosReply).Respond? ==> status == Some(429)) &&
            (LimiterStep(production, rlHeader, hits).Respond? ==> status == Some(429)) &&
            (DdosStep(ddosReply).Next? && LimiterStep(production, rlHeader, hits).Next? ==>
               status == Some(controllerStatus))
  {
    var steps := [DdosStep(ddosReply), LimiterStep(production, rlHeader, hits), Respond(controllerStatus)];
    if DdosStep(ddosReply).Respond? {
      FirstAnswerWins(steps, 0);
    } else if LimiterStep(production, rlHeader, hits).Respond? {
      FirstAnswerWins(steps, 1);
    } else {
      FirstAnswerWins(steps, 2);
    }
  }

  /** The controller is reached only by requests both guards pass on. */
  lemma ControllerNeedsBothGuards(ddosReply: Ddos.Reply, production: bool, rlHeader: Option<string>, hits: nat)
    requires RegisterStatus(ddosReply, production, rlHeader, hits, 201) == Some(201)
    ensures !ddosReply.Rejected? && !ddosReply.Blocking?
    ensures SkipLimiter(production, rlHeader) || hits <= LimitMax
  {
    RegisterOrder(ddosReply, production, rlHeader, hits, 201);
  }
}
