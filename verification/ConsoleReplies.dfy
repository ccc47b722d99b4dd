// What the client reads out of replies, letter by letter: lease states, the
// transient update failure, and errors stripped of secret details.
module ConsoleReplies {
  import opened Basics
  import opened ConsoleLeases
  import opened ConsoleWire

  // c is the lower-case letter or sign d, or its capital.
  predicate IsLetter(c: char, d: char) {
    c == d || ('a' <= d <= 'z' && c as int + 32 == d as int)
  }

  predicate NoCapitals(s: string) {
    forall i :: 0 <= i < |s| ==> !('A' <= s[i] <= 'Z')
  }

  // The phrase stands at this place, in any letter case.
  predicate SaysAt(s: string, phrase: string, at: nat) {
    at + |phrase| <= |s| && forall i :: 0 <= i < |phrase| ==> IsLetter(s[at + i], phrase[i])
  }

  lemma LoweredAt(s: string, phrase: string, at: nat)
    requires NoCapitals(phrase) && at <= |s|
    ensures OccursAt(Lower(s), phrase, at) <==> SaysAt(s, phrase, at)
  {
    if at + |phrase| <= |s| {
      var t := Lower(s)[at..at + |phrase|];
      assert forall i :: 0 <= i < |phrase| ==> t[i] == LowerChar(s[at + i]);
      assert OccursAt(Lower(s), phrase, at) <==> t == phrase;
      forall i | 0 <= i < |phrase| ensures LowerChar(s[at + i]) == phrase[i] <==> IsLetter(s[at + i], phrase[i]) {
        LowerIsLetter(s[at + i], phrase[i]);
      }
    }
  }

  lemma LowerIsLetter(c: char, d: char)
    requires !('A' <= d <= 'Z')
    ensures LowerChar(c) == d <==> IsLetter(c, d)
  {
  }

  // An update is tried again exactly after a 422 that says so somewhere.
  lemma TransientMeans(f: Failure)
    ensures Transient(f) <==>
              f.Http? && f.status == 422
              && exists at :: 0 <= at <= |f.text| && SaysAt(f.text, "manifest version validation failed", at)
  {
    var phrase := "manifest version validation failed";
    assert NoCapitals(phrase);
    if f.Http? {
      hide OccursAt, SaysAt, Lower;
      LowerLength(f.text);
      forall at | 0 <= at <= |f.text| ensures OccursAt(Lower(f.text), phrase, at) <==> SaysAt(f.text, phrase, at) {
        LoweredAt(f.text, phrase, at);
      }
    }
  }

  lemma LowerLength(s: string)
    ensures |Lower(s)| == |s|
  {
  }

  // A lease answers a request when the ids agree and it is active.
  lemma FulfilsMeans(l: Lease, r: LeaseRequest)
    ensures Fulfils(l, r) <==>
              && l.dseq == r.dseq && l.gseq == r.gseq && l.oseq == r.oseq && l.provider == r.provider
              && |l.state| == 6 && SaysAt(l.state, "active", 0)
  {
    var phrase := "active";
    assert NoCapitals(phrase) && |phrase| == 6;
    LoweredAt(l.state, phrase, 0);
    if |l.state| == 6 { assert Lower(l.state)[0..6] == Lower(l.state); }
  }

  // requestedLeasesActive
  method RequestedLeasesActive(actual: seq<Lease>, requested: seq<LeaseRequest>) returns (ok: bool)
    ensures ok == LeasesActive(actual, requested)
  {
    for i := 0 to |requested|
      invariant forall k :: 0 <= k < i ==> Answered(actual, requested[k])
    {
      var req, matched := requested[i], false;
      for j := 0 to |actual|
        invariant !matched && forall k :: 0 <= k < j ==> !Fulfils(actual[k], req)
      {
        var lease := actual[j];
        if lease.dseq == req.dseq && lease.gseq == req.gseq && lease.oseq == req.oseq
           && lease.provider == req.provider && Lower(lease.state) == "active" {
          assert Fulfils(lease, req);
          matched := true;
          break;
        }
      }
      if !matched {
        assert !Answered(actual, req);
        return false;
      }
    }
    return |requested| > 0;
  }

  // An error of a sensitive call shows its status and at most one of nine
  // codes; a reply that carries such a code shows it.
  lemma SanitizedShows(f: Failure)
    ensures !f.Http? ==> Sanitized(f) == f
    ensures f.Http? ==>
              var shown := Sanitized(f);
              && shown.Http? && shown.status == f.status && shown.code == shown.text
              && (|| shown.text == "sensitive response details omitted"
                  || (KnownCode(shown.text) && (shown.text == f.code || (f.code == "" && shown.text == f.text))))
              && (KnownCode(f.code) ==> shown.text == f.code)
              && (f.code == "" && KnownCode(f.text) ==> shown.text == f.text)
  {
  }

  // The codes of the Console's sealed-secrets API.
  predicate KnownCode(code: string) {
    || code == "deployment_definition_changed" || code == "deployment_resources_changed"
    || code == "stored_secrets_unreadable" || code == "stored_sdl_unreadable" || code == "inherited_secrets_unreadable"
    || code == "deployment_definition_exists" || code == "deployment_definition_mismatch"
    || code == "manifest_not_delivered" || code == "provider_unreachable"
  }

  // A reply asks for the request again exactly when it is a 429 or a server
  // error to a request that may be repeated.
  lemma RetriedExactly(req: Request, reply: Reply)
    ensures Interpret(req, reply).TryAgain? <==>
              && reply.Response? && (reply.status == 429 || reply.status >= 500)
              && (req.verb.GET? || req.verb.HEAD? || req.verb.PUT? || req.verb.DELETE?)
  {
  }

  // What a last answer is taken for: a success is a body with data, and a
  // failure is of the class its status says, unless a lease code speaks first.
  lemma ClassesOfReplies(req: Request, reply: Reply)
    ensures var verdict := Interpret(req, reply);
            var coded := req == Request(POST, NewLease) && reply.Response? && reply.status >= 400
                         && reply.body.ErrorBody?
                         && reply.body.code in ["manifest_not_delivered", "provider_unreachable"];
            && (coded ==>
                  verdict == Finish(Failed(Http(reply.status, reply.body.code, reply.body.code))))
            && (!coded && verdict.Finish? ==>
                  && (verdict.data == Failed(Unauthorized) <==> reply.Response? && reply.status == 401)
                  && (verdict.data == Failed(InsufficientFunds) <==> reply.Response? && reply.status == 402)
                  && (verdict.data == Failed(NotFound) <==> reply.Response? && reply.status == 404)
                  && (verdict.data.Got? <==>
                        && reply.Response? && 200 <= reply.status < 300
                        && (reply.body.PageBody? || reply.body.CreatedBody? || reply.body.DetailBody?
                            || reply.body.KeyBody?))
                  && (verdict.data.Got? ==> verdict.data.body == reply.body))
  {
  }

  // ---------------------------------------------------------- deployment numbers

  function Zeros(n: nat): string {
    seq(n, i => '0')
  }

  predicate Digits(s: string) {
    forall i :: 0 <= i < |s| ==> '0' <= s[i] <= '9'
  }

  lemma {:induction false} LeadingZeros(n: nat, s: string)
    requires Digits(s)
    ensures Digits(Zeros(n) + s) && ParseDigits(Zeros(n) + s) == ParseDigits(s)
    decreases |s|, n
  {
    var t := Zeros(n) + s;
    if s != [] {
      assert t[..|t| - 1] == Zeros(n) + s[..|s| - 1];
      LeadingZeros(n, s[..|s| - 1]);
    } else if n > 0 {
      assert t[..|t| - 1] == Zeros(n - 1) + s;
      LeadingZeros(n - 1, s);
    }
  }

  // Digits without a leading zero are the decimal text of their value.
  lemma {:induction false} DigitsAreDecimal(s: string)
    requires Digits(s) && s != [] && s[0] != '0'
    ensures ParseDigits(s) > 0 && Decimal(ParseDigits(s)) == s
    decreases |s|
  {
    var front, last := s[..|s| - 1], s[|s| - 1];
    assert s == front + [last];
    var d := last as int - '0' as int;
    assert Digit(d) == last;
    if front != [] {
      DigitsAreDecimal(front);
      assert ParseDigits(s) / 10 == ParseDigits(front) && ParseDigits(s) % 10 == d;
    } else {
      assert ParseDigits(front) == 0;
    }
  }

  lemma {:induction false} Stripped(s: string) returns (n: nat, rest: string)
    requires Digits(s)
    ensures s == Zeros(n) + rest && Digits(rest) && (rest != [] ==> rest[0] != '0')
  {
    if s == [] || s[0] != '0' {
      n, rest := 0, s;
    } else {
      n, rest := Stripped(s[1..]);
      assert s == [s[0]] + s[1..];
      n := n + 1;
    }
  }

  // A deployment number is valid exactly when it is the decimal text of a
  // positive 64-bit number, possibly after zeros.
  lemma ValidDSeqMeans(dseq: string)
    ensures ValidDSeq(dseq) <==> exists zeros: nat, n: nat :: NumberText(dseq, zeros, n)
  {
    if ValidDSeq(dseq) {
      var zeros, rest := Stripped(dseq);
      LeadingZeros(zeros, rest);
      if rest != [] { DigitsAreDecimal(rest); }
      assert NumberText(dseq, zeros, ParseDigits(dseq));
    }
    if zeros: nat, n: nat :| NumberText(dseq, zeros, n) {
      ParseDecimal(n);
      LeadingZeros(zeros, Decimal(n));
    }
  }

  predicate NumberText(dseq: string, zeros: nat, n: nat) {
    0 < n < 0x1_0000_0000_0000_0000 && dseq == Zeros(zeros) + Decimal(n)
  }
}
