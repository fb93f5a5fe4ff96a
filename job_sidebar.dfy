/**
 * The calendar link on the job side bar: a Google Calendar template URL with the interview's
 * title, its notes and its time, shown on the card of a job in the interview stage.
 */
module JobSideBar {
  import opened Wrappers
  import opened ClientJobs
  import Text
  import UriEncoding

  /**
   * The time stamp the calendar expects, made from an ISO text by deleting every `-`, every `:`
   * and every `.` followed by three digits, scanning from the left.
   */
  function Stamp(s: string): (r: string)
    ensures |r| <= |s|
    ensures '-' !in r && ':' !in r
  {
    if s == [] then []
    else if s[0] == '-' || s[0] == ':' then Stamp(s[1..])
    else if s[0] == '.' && |s| >= 4 && Text.IsDigit(s[1]) && Text.IsDigit(s[2]) && Text.IsDigit(s[3]) then
      Stamp(s[4..])
    else [s[0]] + Stamp(s[1..])
  }

  /** The stamp keeps characters of the text and nothing else. */
  lemma {:induction false} StampChars(s: string, c: char)
    requires c !in s
    ensures c !in Stamp(s)
  {
    if s != [] {
      assert c !in s[1..] && (|s| >= 4 ==> c !in s[4..]);
      StampChars(s[1..], c);
      if |s| >= 4 {
        StampChars(s[4..], c);
      }
    }
  }

  /** Text without separators or dots is its own stamp. */
  lemma {:induction false} StampPlain(s: string)
    requires forall c :: c in s ==> c != '-' && c != ':' && c != '.'
    ensures Stamp(s) == s
  {
    if s != [] {
      assert s[0] in s;
      assert forall c :: c in s[1..] ==> c in s;
      StampPlain(s[1..]);
      assert [s[0]] + s[1..] == s;
    }
  }

  /** The stamp is taken piece by piece when the first piece has no dot. */
  lemma {:induction false} StampAppend(a: string, b: string)
    requires '.' !in a
    ensures Stamp(a + b) == Stamp(a) + Stamp(b)
  {
    if a == [] {
      assert a + b == b;
    } else {
      assert (a + b)[0] == a[0] && (a + b)[1..] == a[1..] + b;
      StampAppend(a[1..], b);
    }
  }

  /**
   * The stamp of an ISO timestamp `YYYY-MM-DDTHH:mm:ss.sssZ` is `YYYYMMDDTHHmmssZ`: the
   * milliseconds are gone and so are the separators.
   */
  lemma StampOfIso(s: string)
    requires IsoShaped(s)
    ensures Stamp(s) == s[0..4] + s[5..7] + s[8..13] + s[14..16] + s[17..19] + "Z"
    ensures |Stamp(s)| == 16
  {
    assert s[0..] == s;
    StampPiece(s, 0, 4);
    StampPiece(s, 5, 7);
    StampPiece(s, 8, 13);
    StampPiece(s, 14, 16);
    StampSeconds(s);
  }

  /** A run of digits (or the `T`) up to a separator is kept, and the separator is dropped. */
  lemma StampPiece(s: string, i: nat, j: nat)
    requires IsoShaped(s)
    requires (i, j) in {(0, 4), (5, 7), (8, 13), (14, 16)}
    ensures Stamp(s[i..]) == s[i..j] + Stamp(s[j + 1..])
  {
    assert s[i..] == s[i..j] + s[j..];
    assert '.' !in s[i..j] by {
      PlainPiece(s, i, j);
    }
    StampAppend(s[i..j], s[j..]);
    PlainPiece(s, i, j);
    assert s[j..][1..] == s[j + 1..];
  }

  /** The seconds are kept; the milliseconds go, and the `Z` stays. */
  lemma StampSeconds(s: string)
    requires IsoShaped(s)
    ensures Stamp(s[17..]) == s[17..19] + "Z"
  {
    assert s[17..] == s[17..19] + s[19..];
    PlainPiece(s, 17, 19);
    StampAppend(s[17..19], s[19..]);
    var ms := s[19..];
    assert ms[0] == '.' && Text.IsDigit(ms[1]) && Text.IsDigit(ms[2]) && Text.IsDigit(ms[3]);
    assert ms[4..] == "Z";
    assert Stamp("Z") == "Z";
  }

  /** The positions `i` to `j` of an ISO timestamp hold no separator and no dot. */
  lemma PlainPiece(s: string, i: nat, j: nat)
    requires IsoShaped(s)
    requires (i, j) in {(0, 4), (5, 7), (8, 13), (14, 16), (17, 19)}
    ensures Stamp(s[i..j]) == s[i..j]
  {
    forall c | c in s[i..j] ensures c != '-' && c != ':' && c != '.' {
      var k :| 0 <= k < j - i && s[i..j][k] == c;
      assert s[i + k] == c;
    }
    StampPlain(s[i..j]);
    assert '.' !in s[i..j];
  }

  const CalendarEndpoint := "https://www.google.com/calendar/render"

  /** The event title. */
  function Title(job: JobView): string {
    "Interview: " + job.jobTitle + " at " + job.company
  }

  /** The event details: the notes, or a placeholder when there are none. */
  function Details(job: JobView): string {
    "Notes: " + OrElse(job.notes, "No notes")
  }

  /**
   * `createCalendarUrl`: the empty string for a job without an interview date; otherwise the
   * calendar's template URL, whose parameters carry the encoded title, the encoded details and
   * the interview's stamp as both start and end.
   */
  function CalendarUrl(job: JobView): (url: string)
    ensures job.interviewDate.None? <==> url == ""
    ensures job.interviewDate.Some? ==> CalendarEndpoint + "?" <= url
  {
    if job.interviewDate.None? then ""
    else
      var start := Stamp(job.interviewDate.value.iso);
      var end := Stamp(job.interviewDate.value.iso);
      var title := UriEncoding.EncodeUriComponent(Title(job));
      var details := UriEncoding.EncodeUriComponent(Details(job));
      var dates := "dates=" + start + "/" + end;
      CalendarEndpoint + "?" + ("action=TEMPLATE" + "&" + ("text=" + title + "&" + ("details=" + details + "&" + dates)))
  }

  /** The query part of a URL that starts with the calendar endpoint and `?`. */
  function Query(url: string): string
    requires CalendarEndpoint + "?" <= url
  {
    url[|CalendarEndpoint| + 1..]
  }

  /** The calendar URL's query parameters, each written `name=value`. */
  function Params(job: JobView): seq<string>
    requires job.interviewDate.Some?
  {
    var stamp := Stamp(job.interviewDate.value.iso);
    [ "action=TEMPLATE",
      "text=" + UriEncoding.EncodeUriComponent(Title(job)),
      "details=" + UriEncoding.EncodeUriComponent(Details(job)),
      "dates=" + stamp + "/" + stamp ]
  }

  /**
   * Split at `&`, the query of the calendar URL gives the four parameters in order; the start
   * and the end of the event are the same stamp, and the title and the details decode back to
   * their text.
   */
  lemma CalendarQuery(job: JobView)
    requires job.interviewDate.Some?
    requires '&' !in job.interviewDate.value.iso
    ensures var stamp := Stamp(job.interviewDate.value.iso);
      var title := UriEncoding.EncodeUriComponent(Title(job));
      var details := UriEncoding.EncodeUriComponent(Details(job));
      && Text.Split(Query(CalendarUrl(job)), '&') ==
           ["action=TEMPLATE", "text=" + title, "details=" + details, "dates=" + stamp + "/" + stamp]
      && UriEncoding.Decode(title, false) == Some(Title(job))
      && UriEncoding.Decode(details, false) == Some(Details(job))
  {
    QueryIsJoin(job);
    ParamsWithoutAmpersand(job);
    Text.SplitJoin(Params(job), '&');
    UriEncoding.EncodeUriComponentRoundTrip(Title(job));
    UriEncoding.EncodeUriComponentRoundTrip(Details(job));
  }

  lemma QueryIsJoin(job: JobView)
    requires job.interviewDate.Some?
    ensures Query(CalendarUrl(job)) == Text.Join(Params(job), '&')
  {
    var parts := Params(job);
    assert Text.Join(parts[3..], '&') == parts[3];
    assert Text.Join(parts[2..], '&') == parts[2] + "&" + parts[3] by {
      assert parts[2..][1..] == parts[3..];
    }
    assert Text.Join(parts[1..], '&') == parts[1] + "&" + (parts[2] + "&" + parts[3]) by {
      assert parts[1..][1..] == parts[2..];
    }
    var query := Text.Join(parts, '&');
    assert CalendarUrl(job) == CalendarEndpoint + "?" + query;
    assert (CalendarEndpoint + "?" + query)[|CalendarEndpoint| + 1..] == query;
  }

  lemma ParamsWithoutAmpersand(job: JobView)
    requires job.interviewDate.Some?
    requires '&' !in job.interviewDate.value.iso
    ensures forall i :: 0 <= i < |Params(job)| ==> '&' !in Params(job)[i]
  {
    var parts := Params(job);
    LiteralsWithoutAmpersand();
    EncodedWithoutAmpersand(Title(job));
    EncodedWithoutAmpersand(Details(job));
    WithoutAmpersand("text=", UriEncoding.EncodeUriComponent(Title(job)));
    WithoutAmpersand("details=", UriEncoding.EncodeUriComponent(Details(job)));
    DatesWithoutAmpersand(job.interviewDate.value.iso);
  }

  lemma LiteralsWithoutAmpersand()
    ensures '&' !in "action=TEMPLATE" && '&' !in "text=" && '&' !in "details=" && '&' !in "dates="
  {
  }

  lemma DatesWithoutAmpersand(iso: string)
    requires '&' !in iso
    ensures '&' !in "dates=" + Stamp(iso) + "/" + Stamp(iso)
  {
    var stamp := Stamp(iso);
    StampChars(iso, '&');
    LiteralsWithoutAmpersand();
    WithoutAmpersand("dates=", stamp);
    WithoutAmpersand("dates=" + stamp, "/");
    WithoutAmpersand("dates=" + stamp + "/", stamp);
  }

  lemma EncodedWithoutAmpersand(s: string)
    ensures '&' !in UriEncoding.EncodeUriComponent(s)
  {
    UriEncoding.EncodeUriComponentAlphabet(s);
    assert !UriEncoding.UriUnreserved('&');
  }

  lemma WithoutAmpersand(a: string, b: string)
    requires '&' !in a && '&' !in b
    ensures '&' !in a + b
  {
  }

  /** The calendar card is on the side bar of a job in the interview stage with a date. */
  predicate ShowCalendarCard(job: JobView) {
    job.status == Interview && job.interviewDate.Some?
  }

  /** Whenever the card is shown, its link is a calendar URL and never the empty one. */
  lemma CardLinksToCalendar(job: JobView)
    requires ShowCalendarCard(job)
    ensures CalendarUrl(job) != "" && CalendarEndpoint + "?" <= CalendarUrl(job)
  {
  }
}
