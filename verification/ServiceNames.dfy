/**
 Service names and the ALPNs derived from them.

 A Rust string is written as the sequence of its UTF-8 bytes, one `char` per byte.
 */
module ServiceNames {

  datatype NameError = BadLength(len: nat) | BadEdge | DoubleDash | InvalidChars | Reserved

  datatype NameCheck = Valid | Invalid(error: NameError)

  const MAX_NAME := 32

  const RESERVED: set<string> := {"control", "data", "status", "reload", "admin", "metrics", "ping"}

  const ALPN_PREFIX: string := "meshly-core/"
  const ALPN_CONTROL: string := "meshly-core/control"
  const ALPN_DATA: string := "meshly-core/data"

  predicate LowerOrDigit(c: char) {
    'a' <= c <= 'z' || '0' <= c <= '9'
  }

  predicate HasDoubleDash(name: string) {
    exists i :: 0 <= i < |name| - 1 && name[i] == '-' && name[i + 1] == '-'
  }

  function ValidateServiceName(name: string): NameCheck {
    if !(1 <= |name| <= MAX_NAME) then Invalid(BadLength(|name|))
    else if name[0] == '-' || name[|name| - 1] == '-' then Invalid(BadEdge)
    else if HasDoubleDash(name) then Invalid(DoubleDash)
    else if !(forall i :: 0 <= i < |name| ==> LowerOrDigit(name[i]) || name[i] == '-') then Invalid(InvalidChars)
    else if name in RESERVED then Invalid(Reserved)
    else Valid
  }

  // ---------------------------------------------------------------------
  // The grammar of names
  // ---------------------------------------------------------------------

  /** A non-empty run of `[a-z0-9]`. */
  predicate IsRun(r: string) {
    r != "" && forall i :: 0 <= i < |r| ==> LowerOrDigit(r[i])
  }

  predicate AllRuns(runs: seq<string>) {
    runs != [] && forall i :: 0 <= i < |runs| ==> IsRun(runs[i])
  }

  function JoinDash(runs: seq<string>): string {
    if runs == [] then ""
    else if |runs| == 1 then runs[0]
    else runs[0] + "-" + JoinDash(runs[1..])
  }

  ghost predicate RunsJoinedByDashes(name: string) {
    exists runs :: AllRuns(runs) && JoinDash(runs) == name
  }

  /** The character rules that `validate_service_name` checks one after the other. */
  predicate Shaped(name: string) {
    && name != "" && name[0] != '-' && name[|name| - 1] != '-' && !HasDoubleDash(name)
    && forall i :: 0 <= i < |name| ==> LowerOrDigit(name[i]) || name[i] == '-'
  }

  function FirstDash(name: string): (i: nat)
    ensures i <= |name|
    ensures forall k :: 0 <= k < i ==> name[k] != '-'
    ensures i < |name| ==> name[i] == '-'
  {
    if name == "" || name[0] == '-' then 0 else 1 + FirstDash(name[1..])
  }

  lemma {:induction false} ShapedIsRuns(name: string) returns (runs: seq<string>)
    requires Shaped(name)
    ensures AllRuns(runs) && JoinDash(runs) == name
    decreases |name|
  {
    var i := FirstDash(name);
    if i == |name| {
      runs := [name];
    } else {
      var head, tail := name[..i], name[i + 1..];
      assert name == head + "-" + tail;
      assert forall k :: 0 <= k < |tail| ==> tail[k] == name[i + 1 + k];
      var more := ShapedIsRuns(tail);
      runs := [head] + more;
      assert IsRun(head) && runs[1..] == more;
    }
  }

  lemma {:induction false} RunsAreShaped(runs: seq<string>)
    requires AllRuns(runs)
    ensures Shaped(JoinDash(runs))
    decreases |runs|
  {
    if |runs| > 1 {
      assert AllRuns(runs[1..]);
      RunsAreShaped(runs[1..]);
      var head, tail := runs[0], JoinDash(runs[1..]);
      var name := JoinDash(runs);
      assert forall k :: 0 <= k < |head| ==> name[k] == head[k];
      assert name[|head|] == '-';
      assert forall k :: |head| < k < |name| ==> name[k] == tail[k - |head| - 1];
      assert IsRun(head);
    } else {
      assert IsRun(runs[0]);
    }
  }

  /** A name is accepted exactly when it is 1 to 32 bytes of runs joined by single dashes, and not reserved. */
  lemma AcceptedExactly(name: string)
    ensures ValidateServiceName(name).Valid?
       <==> 1 <= |name| <= 32 && RunsJoinedByDashes(name) && name !in RESERVED
  {
    if Shaped(name) {
      var runs := ShapedIsRuns(name);
    }
    if RunsJoinedByDashes(name) {
      var runs :| AllRuns(runs) && JoinDash(runs) == name;
      RunsAreShaped(runs);
    }
  }

  // ---------------------------------------------------------------------
  // ALPNs
  // ---------------------------------------------------------------------

  datatype AlpnResult = Alpn(bytes: string) | NoAlpn(error: NameError)

  function AlpnForService(name: string): AlpnResult {
    match ValidateServiceName(name)
    case Valid => Alpn(ALPN_PREFIX + name)
    case Invalid(e) => NoAlpn(e)
  }

  /** Different services have different ALPNs, and none collides with the two the server reserves. */
  lemma AlpnsAreDistinct(a: string, b: string)
    requires AlpnForService(a).Alpn? && AlpnForService(b).Alpn? && a != b
    ensures AlpnForService(a) != AlpnForService(b) && AlpnForService(a).bytes == "meshly-core/" + a
    ensures AlpnForService(a).bytes != ALPN_CONTROL && AlpnForService(a).bytes != ALPN_DATA
  {
    assert (ALPN_PREFIX + a)[|ALPN_PREFIX|..] == a;
    assert (ALPN_PREFIX + b)[|ALPN_PREFIX|..] == b;
    assert ALPN_CONTROL[|ALPN_PREFIX|..] == "control";
    assert ALPN_DATA[|ALPN_PREFIX|..] == "data";
  }
}
