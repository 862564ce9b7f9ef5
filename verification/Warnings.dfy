/** Announce warnings, which empty the peer list, and the message they are joined into. */
module Warnings {
  import opened Results

  datatype AnnounceWarning = RateLimitExceeded | HitDownloadSlotLimit | ConnectivityIssueDetected

  const SEPARATOR := "; "

  const MAX_WARNING_LEN := 64 + |SEPARATOR|

  predicate IsSilent(w: AnnounceWarning) {
    w.RateLimitExceeded?
  }

  function Text(w: AnnounceWarning): (s: string)
    ensures 0 < |s| <= 64
  {
    match w
    case RateLimitExceeded => "Rate limit exceeded. Please wait."
    case HitDownloadSlotLimit => "Download slot limit reached"
    case ConnectivityIssueDetected => "Connectivity issue detected. Enable port-forwarding to resolve."
  }

  /** What the user sees of a warning */
  function Shown(w: AnnounceWarning): seq<string> {
    if IsSilent(w) then [] else [Text(w)]
  }

  /** The texts shown to the user, in order */
  function Audible(ws: seq<AnnounceWarning>): seq<string> {
    if ws == [] then [] else Shown(ws[0]) + Audible(ws[1..])
  }

  function Join(texts: seq<string>): string {
    if texts == [] then ""
    else if |texts| == 1 then texts[0]
    else texts[0] + SEPARATOR + Join(texts[1..])
  }

  /** The texts joined by the separator, or nothing if there are no texts */
  function Message(ws: seq<AnnounceWarning>): Option<string> {
    if Audible(ws) == [] then None else Some(Join(Audible(ws)))
  }

  function Terminated(texts: seq<string>): string {
    if texts == [] then "" else texts[0] + SEPARATOR + Terminated(texts[1..])
  }

  lemma {:induction false} TerminatedIsJoin(texts: seq<string>)
    ensures Terminated(texts) == if texts == [] then "" else Join(texts) + SEPARATOR
  {
    if texts != [] {
      TerminatedIsJoin(texts[1..]);
      if |texts| > 1 {
        assert texts[0] + SEPARATOR + (Join(texts[1..]) + SEPARATOR)
            == (texts[0] + SEPARATOR + Join(texts[1..])) + SEPARATOR;
      } else {
        assert texts[0] + SEPARATOR + "" == texts[0] + SEPARATOR;
      }
    }
  }

  lemma Associate<T>(a: seq<T>, b: seq<T>, c: seq<T>)
    ensures (a + b) + c == a + (b + c)
  {
  }

  lemma {:induction false} AudibleSnoc(ws: seq<AnnounceWarning>, w: AnnounceWarning)
    ensures Audible(ws + [w]) == Audible(ws) + Shown(w)
  {
    if ws == [] {
      assert ws + [w] == [w] && [w][1..] == [];
      assert Shown(w) + [] == Shown(w) && [] + Shown(w) == Shown(w);
    } else {
      AudibleSnoc(ws[1..], w);
      assert (ws + [w])[0] == ws[0] && (ws + [w])[1..] == ws[1..] + [w];
      Associate(Shown(ws[0]), Audible(ws[1..]), Shown(w));
    }
  }

  lemma {:induction false} TerminatedSnoc(texts: seq<string>, t: string)
    ensures Terminated(texts + [t]) == Terminated(texts) + t + SEPARATOR
  {
    if texts == [] {
      assert texts + [t] == [t];
      assert Terminated([t]) == t + SEPARATOR + "";
    } else {
      TerminatedSnoc(texts[1..], t);
      assert (texts + [t])[1..] == texts[1..] + [t];
      assert texts[0] + SEPARATOR + (Terminated(texts[1..]) + t + SEPARATOR)
          == (texts[0] + SEPARATOR + Terminated(texts[1..])) + t + SEPARATOR;
    }
  }

  /** What one warning more adds to the texts written so far */
  lemma OneMore(ws: seq<AnnounceWarning>, i: nat)
    requires i < |ws|
    ensures var written := Terminated(Audible(ws[..i]));
            Terminated(Audible(ws[..i + 1]))
            == if IsSilent(ws[i]) then written else written + Text(ws[i]) + SEPARATOR
  {
    assert ws[..i + 1] == ws[..i] + [ws[i]];
    AudibleSnoc(ws[..i], ws[i]);
    if IsSilent(ws[i]) {
      assert Audible(ws[..i]) + [] == Audible(ws[..i]);
    } else {
      TerminatedSnoc(Audible(ws[..i]), Text(ws[i]));
    }
  }

  /** Without its last separator, what was written is the message */
  lemma Stripped(ws: seq<AnnounceWarning>)
    ensures var written := Terminated(Audible(ws));
            if Message(ws).None? then written == ""
            else |SEPARATOR| <= |written| && written != ""
                 && Message(ws) == Some(written[..|written| - |SEPARATOR|])
  {
    TerminatedIsJoin(Audible(ws));
    if Message(ws).Some? {
      var joined := Join(Audible(ws));
      assert (joined + SEPARATOR)[..|joined|] == joined;
    }
  }

  class WarningCollection {
    var warnings: seq<AnnounceWarning>

    constructor ()
      ensures warnings == []
    {
      warnings := [];
    }

    method Add(w: AnnounceWarning)
      modifies this
      ensures warnings == old(warnings) + [w]
    {
      warnings := warnings + [w];
    }

    predicate IsEmpty()
      reads this
    {
      warnings == []
    }

    /** The number of bytes set aside for the message */
    function MaxByteLength(): nat
      reads this
    {
      |warnings| * MAX_WARNING_LEN
    }

    method IntoMessage() returns (r: Option<string>)
      ensures r == Message(warnings)
      ensures r.Some? ==> |r.value| + |SEPARATOR| <= MaxByteLength()
    {
      if Message(warnings).Some? {
        MessageFits(warnings);
      }
      if warnings == [] {
        return None;
      }
      var message := "";
      for i := 0 to |warnings|
        invariant message == Terminated(Audible(warnings[..i]))
      {
        OneMore(warnings, i);
        if !IsSilent(warnings[i]) {
          message := message + Text(warnings[i]);
          message := message + SEPARATOR;
        }
      }
      assert warnings[..|warnings|] == warnings;
      Stripped(warnings);
      if message == "" {
        return None;
      }
      message := message[..|message| - |SEPARATOR|];
      r := Some(message);
    }
  }

  lemma {:induction false} TerminatedLength(ws: seq<AnnounceWarning>)
    ensures |Terminated(Audible(ws))| <= |ws| * MAX_WARNING_LEN
  {
    if ws != [] {
      TerminatedLength(ws[1..]);
      ShownLength(ws[0], Audible(ws[1..]));
    }
  }

  lemma ShownLength(w: AnnounceWarning, texts: seq<string>)
    ensures |Terminated(Shown(w) + texts)| <= MAX_WARNING_LEN + |Terminated(texts)|
  {
    if IsSilent(w) {
      assert [] + texts == texts;
    } else {
      assert ([Text(w)] + texts)[1..] == texts;
    }
  }

  /** The message fits in the bytes set aside for it */
  lemma MessageFits(ws: seq<AnnounceWarning>)
    requires Message(ws).Some?
    ensures |Message(ws).value| + |SEPARATOR| <= |ws| * MAX_WARNING_LEN
  {
    TerminatedLength(ws);
    TerminatedIsJoin(Audible(ws));
  }

  /** The client is told nothing exactly if it is warned of nothing but its rate */
  lemma {:induction false} SilentIff(ws: seq<AnnounceWarning>)
    ensures Message(ws).None? <==> forall w :: w in ws ==> w == RateLimitExceeded
  {
    if ws != [] {
      SilentIff(ws[1..]);
      assert forall w :: w in ws <==> w == ws[0] || w in ws[1..];
      if IsSilent(ws[0]) {
        assert [] + Audible(ws[1..]) == Audible(ws[1..]);
      } else {
        assert ws[0] in ws && Audible(ws)[0] == Text(ws[0]);
      }
    }
  }

  /** One warning is told as it is, two with the separator between them */
  lemma MessagesAre(rest: seq<AnnounceWarning>)
    ensures Message([HitDownloadSlotLimit]) == Some("Download slot limit reached")
    ensures Message([ConnectivityIssueDetected])
            == Some("Connectivity issue detected. Enable port-forwarding to resolve.")
    ensures Message([ConnectivityIssueDetected, HitDownloadSlotLimit])
            == Some("Connectivity issue detected. Enable port-forwarding to resolve." + "; " + "Download slot limit reached")
    ensures Message([RateLimitExceeded] + rest) == Message(rest)
  {
    assert ([RateLimitExceeded] + rest)[1..] == rest;
    assert [] + Audible(rest) == Audible(rest);
    assert [HitDownloadSlotLimit][1..] == [] && [ConnectivityIssueDetected][1..] == [];
    assert [ConnectivityIssueDetected, HitDownloadSlotLimit][1..] == [HitDownloadSlotLimit];
  }
}
