/**
 * The ESP8266 AT-command driver: it hands command lines to the UART and
 * classifies each received response by the keywords it contains.
 */
module Esp {
  import opened Common
  import Ring
  import Log

  /** ESP_RESPONSE_MAX: the size of the response buffer, terminator included. */
  const RESPONSE_MAX := 128

  /** ESP_RESPONSE. */
  datatype Response = Ok | Error | Busy | LedOn | LedOff | Unknown

  /** `pat` occurs in `s` starting at index `i`. */
  predicate At(s: string, pat: string, i: nat)
  {
    i + |pat| <= |s| && s[i..i + |pat|] == pat
  }

  /** The reference meaning of a substring search: some index where `pat` starts. */
  ghost predicate Occurs(s: string, pat: string)
  {
    exists i: nat :: At(s, pat, i)
  }

  /** A left-to-right scan for `pat` in `s`. */
  function Search(s: string, pat: string): bool
    decreases |s|
  {
    if |s| < |pat| then false
    else if s[..|pat|] == pat then true
    else Search(s[1..], pat)
  }

  /** strstr: searches the C string, that is, everything before the first NUL. */
  function Strstr(s: string, pat: string): bool
  {
    Search(s[..Log.StrLen(s)], pat)
  }

  /** ESP_ParseResponse: the first keyword found, in a fixed order, decides. */
  function Parse(resp: string): Response
  {
    if Strstr(resp, "OK") then Ok
    else if Strstr(resp, "ERROR") then Error
    else if Strstr(resp, "BUSY") then Busy
    else if Strstr(resp, "LED_ON") then LedOn
    else if Strstr(resp, "LED_OFF") then LedOff
    else Unknown
  }

  /** The C string a buffer holds. */
  function Text(s: string): string
  {
    s[..Log.StrLen(s)]
  }

  lemma {:induction false} SearchFinds(s: string, pat: string)
    ensures Search(s, pat) <==> Occurs(s, pat)
    decreases |s|
  {
    if |s| < |pat| {
    } else if s[..|pat|] == pat {
      assert At(s, pat, 0);
    } else {
      SearchFinds(s[1..], pat);
      if Occurs(s[1..], pat) {
        var i: nat :| At(s[1..], pat, i);
        assert s[i + 1..i + 1 + |pat|] == s[1..][i..i + |pat|];
        assert At(s, pat, i + 1);
      }
      if Occurs(s, pat) {
        var i: nat :| At(s, pat, i);
        if i > 0 {
          assert s[1..][i - 1..i - 1 + |pat|] == s[i..i + |pat|];
          assert At(s[1..], pat, i - 1);
        }
      }
    }
  }

  /**
   * The classification, stated on occurrences in the C string: each result is
   * reported exactly when its keyword occurs and no keyword ahead of it does.
   */
  lemma ParsePriority(resp: string)
    ensures Parse(resp) == Ok <==> Occurs(Text(resp), "OK")
    ensures Parse(resp) == Error <==> !Occurs(Text(resp), "OK") && Occurs(Text(resp), "ERROR")
    ensures Parse(resp) == Busy <==>
      !Occurs(Text(resp), "OK") && !Occurs(Text(resp), "ERROR") && Occurs(Text(resp), "BUSY")
    ensures Parse(resp) == LedOn <==>
      !Occurs(Text(resp), "OK") && !Occurs(Text(resp), "ERROR") && !Occurs(Text(resp), "BUSY") &&
      Occurs(Text(resp), "LED_ON")
    ensures Parse(resp) == LedOff <==>
      !Occurs(Text(resp), "OK") && !Occurs(Text(resp), "ERROR") && !Occurs(Text(resp), "BUSY") &&
      !Occurs(Text(resp), "LED_ON") && Occurs(Text(resp), "LED_OFF")
    ensures Parse(resp) == Unknown <==>
      !Occurs(Text(resp), "OK") && !Occurs(Text(resp), "ERROR") && !Occurs(Text(resp), "BUSY") &&
      !Occurs(Text(resp), "LED_ON") && !Occurs(Text(resp), "LED_OFF")
  {
    var t := Text(resp);
    SearchFinds(t, "OK");
    SearchFinds(t, "ERROR");
    SearchFinds(t, "BUSY");
    SearchFinds(t, "LED_ON");
    SearchFinds(t, "LED_OFF");
  }

  /** A keyword anywhere in the C string wins over every keyword after it in the order. */
  lemma OkWins(resp: string, i: nat)
    requires At(Text(resp), "OK", i)
    ensures Parse(resp) == Ok
  {
    ParsePriority(resp);
  }

  /** Text after the terminator is never looked at. */
  lemma StopsAtNul(resp: string, rest: string)
    requires '\0' !in resp
    ensures Parse(resp + "\0" + rest) == Parse(resp)
  {
    StrLenOf(resp, rest);
    StrLenOf(resp, "");
    assert (resp + "\0" + rest)[..|resp|] == resp;
    assert (resp + "\0")[..|resp|] == resp;
    assert resp[..Log.StrLen(resp)] == resp by {
      Log.StrLenAll(resp);
    }
  }

  lemma {:induction false} StrLenOf(s: string, rest: string)
    requires '\0' !in s
    ensures Log.StrLen(s + "\0" + rest) == |s|
    decreases |s|
  {
    if s != [] {
      assert (s + "\0" + rest)[1..] == s[1..] + "\0" + rest;
      StrLenOf(s[1..], rest);
    }
  }

  /** "LED_OFF" is not mistaken for "LED_ON", although LED_ON is tested first. */
  lemma LedOffIsOff()
    ensures Parse("LED_OFF\0") == LedOff
  {
    var t := "LED_OFF";
    var r := t + "\0";
    assert r == "LED_OFF\0";
    CleanText(t);
    assert !Occurs(t, "OK") by { NotIn(t, "OK", 'K'); }
    assert !Occurs(t, "ERROR") by { NotIn(t, "ERROR", 'R'); }
    assert !Occurs(t, "BUSY") by { NotIn(t, "BUSY", 'B'); }
    assert !Occurs(t, "LED_ON") by { NotIn(t, "LED_ON", 'N'); }
    assert Occurs(t, "LED_OFF") by { assert At(t, "LED_OFF", 0); }
    ParsePriority(r);
  }

  /** A terminated text is read back whole. */
  lemma CleanText(t: string)
    requires '\0' !in t
    ensures Text(t + "\0") == t
  {
    StrLenOf(t, "");
    assert (t + "\0" + "")[..|t|] == t;
  }

  /** A keyword holding a character the text lacks does not occur in it. */
  lemma NotIn(s: string, pat: string, c: char)
    requires c in pat && c !in s
    ensures !Occurs(s, pat)
  {
  }

  /** The driver's module state: the response buffer, the handler and what it was given. */
  class Driver {
    /** m_rxBuffer. */
    const rxBuffer: array<byte>
    /** m_onEspResponse; `None` is NULL. */
    var handler: Option<CallbackId>
    /** Every call of the response handler, with the result it was passed. */
    var responses: seq<(CallbackId, Response)>
    /** Every UartWrite_IT call, as the text it hands to the UART. */
    var writes: seq<string>

    ghost predicate Valid()
      reads this
    {
      rxBuffer.Length == RESPONSE_MAX
    }

    /** The static initialisers; ESP_Init's UART set-up is outside this model. */
    constructor ()
      ensures Valid() && fresh(rxBuffer)
      ensures handler == None && responses == [] && writes == []
    {
      rxBuffer := new byte[RESPONSE_MAX];
      handler := None;
      responses := [];
      writes := [];
    }

    /** ESP_RegisterResponseHandler: the new handler replaces the old one. */
    method RegisterResponseHandler(callback: Option<CallbackId>)
      modifies this`handler
      ensures handler == callback
    {
      handler := callback;
    }

    /** ESP_SendCommand: the command, its length taken as a uint8_t, then CR LF. */
    method SendCommand(command: string)
      modifies this`writes
      ensures writes == old(writes) + [command[..Log.StrLen(command) % 256], "\r\n"]
    {
      var len := Log.StrLen(command) % 256;
      writes := writes + [command[..len]];
      writes := writes + ["\r\n"];
    }

    /**
     * OnUartReceiveCompleted: a response shorter than the buffer is drained
     * from the UART's receive queue, terminated, classified and passed to the
     * handler when one is registered; a longer one is left where it is.
     */
    method OnUartReceiveCompleted(queue: Ring.Buffer<byte>)
      requires Valid() && queue.Valid() && queue.data != rxBuffer
      modifies this`responses, rxBuffer, queue
      ensures Valid() && queue.Valid() && queue.data == old(queue.data)
      ensures queue.length == old(queue.length) && queue.typeSize == old(queue.typeSize)
      ensures queue.overwrite == old(queue.overwrite)
      ensures
        var q := old(queue.Contents());
        if |q| < RESPONSE_MAX then
          queue.Contents() == [] &&
          rxBuffer[..|q| + 1] == q + [0] && rxBuffer[|q| + 1..] == old(rxBuffer[|q| + 1..]) &&
          responses == old(responses) + Notify(handler, Parse(Chars(q + [0])))
        else
          queue.Contents() == q && rxBuffer[..] == old(rxBuffer[..]) && responses == old(responses)
    {
      var count := queue.Count();
      if count < RESPONSE_MAX {
        ghost var q := queue.Contents();
        Drain(queue, rxBuffer, count);
        rxBuffer[count] := 0;
        assert rxBuffer[..count + 1] == q + [0];
        var result := Parse(Chars(rxBuffer[..count + 1]));
        if handler.Some? {
          responses := responses + [(handler.value, result)];
        }
      }
    }
  }

  /** The handler call a result produces: one when a handler is registered, none otherwise. */
  function Notify(handler: Option<CallbackId>, r: Response): (calls: seq<(CallbackId, Response)>)
    ensures handler.None? <==> calls == []
    ensures handler.Some? ==> calls == [(handler.value, r)]
  {
    match handler
    case None => []
    case Some(h) => [(h, r)]
  }

  /** The loop of BufferGet calls: exactly `count` bytes move, in order, into `dest`. */
  method Drain(queue: Ring.Buffer<byte>, dest: array<byte>, count: nat)
    requires queue.Valid() && dest != queue.data
    requires count == |queue.Contents()| && count < dest.Length
    modifies queue, dest
    ensures queue.Valid() && queue.data == old(queue.data)
    ensures queue.length == old(queue.length) && queue.typeSize == old(queue.typeSize)
    ensures queue.overwrite == old(queue.overwrite)
    ensures queue.Contents() == []
    ensures dest[..count] == old(queue.Contents()) && dest[count..] == old(dest[count..])
  {
    ghost var q := queue.Contents();
    ghost var d := dest[..];
    for i := 0 to count
      invariant queue.Valid() && queue.data == old(queue.data)
      invariant queue.length == old(queue.length) && queue.typeSize == old(queue.typeSize)
      invariant queue.overwrite == old(queue.overwrite)
      invariant queue.Contents() == q[i..]
      invariant dest[..] == q[..i] + d[i..]
    {
      var ok, item := queue.Get(dest[i]);
      assert q[i..][1..] == q[i + 1..];
      dest[i] := item;
      Stored(q, d, i);
    }
    assert q[count..] == [];
    assert dest[..count] == (q + d[count..])[..count];
    assert dest[count..] == (q + d[count..])[count..];
  }

  /** One more byte of `q` copied over the old contents `d`. */
  lemma Stored(q: seq<byte>, d: seq<byte>, i: nat)
    requires i < |q| <= |d|
    ensures (q[..i] + d[i..])[i := q[i]] == q[..i + 1] + d[i + 1..]
  {
  }
}
