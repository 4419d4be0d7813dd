/** The page's state machine in src/main.ts: `handleSubmit` and
    `handleGenerateTitles` over the module variable `currentVideoInfo`.
    The two server round trips are parameters (functions from what is sent
    to what comes back, a record or the message of the thrown error); the
    DOM updates around them are left out. */
module Client {
  import opened Wrappers
  import opened Text
  import opened VideoId
  import opened Catalog

  const EmptyUrlMessage: string := "Please enter a YouTube URL"
  const InvalidUrlMessage: string := "Invalid YouTube URL. Please check and try again."

  /** What `handleSubmit` ends up showing. */
  datatype SubmitOutcome =
    | EmptyUrl                  // the error message EmptyUrlMessage
    | InvalidUrl                // the error message InvalidUrlMessage
    | Loaded(info: VideoInfo)   // the video card
    | LoadFailed(message: string)

  /** The message `handleSubmit` leaves in the message container: an error
      text for every outcome but a load, which clears the loading message. */
  function ShownMessage(o: SubmitOutcome): (m: Option<string>)
    ensures m.None? <==> o.Loaded?
    ensures o.EmptyUrl? ==> m == Some(EmptyUrlMessage)
    ensures o.InvalidUrl? ==> m == Some(InvalidUrlMessage)
    ensures o.LoadFailed? ==> m == Some(o.message)
  {
    match o
    case EmptyUrl => Some(EmptyUrlMessage)
    case InvalidUrl => Some(InvalidUrlMessage)
    case Loaded(_) => None
    case LoadFailed(message) => Some(message)
  }

  /** What `handleGenerateTitles` ends up showing. */
  datatype TitlesOutcome =
    | NoVideo                   // returns at once; nothing changes
    | Shown(variations: seq<string>)
    | GenerateFailed(message: string)

  /** The id `handleSubmit` would request for the text in the input box. */
  function RequestedId(input: string): (r: Option<string>)
    ensures Trim(input) == [] ==> r.None?
    ensures Trim(input) != [] ==> r == ExtractVideoId(Trim(input))
    ensures AllWs(input) ==> r.None?
  {
    var url := Trim(input);
    if url == [] then None else ExtractVideoId(url)
  }

  class Session {
    /** `currentVideoInfo`: the video last loaded successfully. */
    var current: Option<VideoInfo>
    /** The video card in the info container, if one is shown. The card
        carries the only Generate button, so `handleGenerateTitles` is
        reached only while a card is shown. */
    var card: Option<VideoInfo>

    /** A shown card is the current video. */
    predicate Valid()
      reads this
    {
      card.Some? ==> card == current
    }

    constructor ()
      ensures current == None && card == None
      ensures Valid()
    {
      current := None;
      card := None;
    }

    /** `handleSubmit`: trim the input, extract the id, fetch the record.
        Empty input and unrecognised links return before any request and
        leave the current video alone; a failed request leaves it alone
        too; only a successful one replaces it. Every outcome but a
        successful load empties the info container. */
    method Submit(input: string, fetch: string -> Result<VideoInfo, string>)
      returns (outcome: SubmitOutcome, requested: Option<string>)
      requires Valid()
      modifies this
      ensures Valid()
      ensures requested == RequestedId(input)
      ensures Trim(input) == [] ==> outcome == EmptyUrl
      ensures Trim(input) != [] && requested.None? ==> outcome == InvalidUrl
      ensures requested.None? ==> ShownMessage(outcome).Some?
      ensures requested.None? ==> current == old(current) && card == None
      ensures requested.Some? && fetch(requested.value).Success? ==>
                current == Some(fetch(requested.value).value)
                && card == current
                && outcome == Loaded(fetch(requested.value).value)
      ensures requested.Some? && fetch(requested.value).Failure? ==>
                current == old(current) && card == None
                && outcome == LoadFailed(fetch(requested.value).error)
    {
      var url := Trim(input);
      if url == [] {
        card := None;
        return EmptyUrl, None;
      }
      var videoId := ExtractVideoId(url);
      if videoId.None? {
        card := None;
        return InvalidUrl, None;
      }
      requested := videoId;
      var reply := fetch(videoId.value);
      match reply {
        case Success(info) =>
          current := Some(info);
          card := Some(info);
          outcome := Loaded(info);
        case Failure(message) =>
          card := None;
          outcome := LoadFailed(message);
      }
    }

    /** `handleGenerateTitles`: nothing without a current video; otherwise
        one request for exactly the current video's title. */
    method GenerateTitles(generate: string -> Result<seq<string>, string>)
      returns (outcome: TitlesOutcome, requested: Option<string>)
      ensures current.None? <==> requested.None?
      ensures current.None? ==> outcome == NoVideo
      ensures current.Some? ==> requested == Some(current.value.title)
      ensures current.Some? && generate(current.value.title).Success? ==>
                outcome == Shown(generate(current.value.title).value)
      ensures current.Some? && generate(current.value.title).Failure? ==>
                outcome == GenerateFailed(generate(current.value.title).error)
    {
      if current.None? {
        return NoVideo, None;
      }
      var title := current.value.title;
      requested := Some(title);
      match generate(title) {
        case Success(variations) => outcome := Shown(variations);
        case Failure(message) => outcome := GenerateFailed(message);
      }
    }
  }

  /** After a successful load the card is shown, and its Generate button
      requests titles for exactly the loaded video's title. */
  method LoadedCardRequestsItsTitle(link: string,
                                    fetch: string -> Result<VideoInfo, string>,
                                    generate: string -> Result<seq<string>, string>)
    returns (card: Option<VideoInfo>, title: Option<string>)
    requires RequestedId(link).Some? && fetch(RequestedId(link).value).Success?
    ensures card == Some(fetch(RequestedId(link).value).value)
    ensures title == Some(fetch(RequestedId(link).value).value.title)
  {
    var session := new Session();
    var outcome, requested := session.Submit(link, fetch);
    card := session.card;
    var titles;
    titles, title := session.GenerateTitles(generate);
  }

  /** A blank submit after a successful load keeps `currentVideoInfo` but
      removes the card, and with it the Generate button: the kept video can
      no longer reach a title request until another load succeeds. */
  method RejectedInputHidesCard(link: string, blank: string,
                                fetch: string -> Result<VideoInfo, string>)
    returns (kept: Option<VideoInfo>, card: Option<VideoInfo>)
    requires RequestedId(link).Some? && fetch(RequestedId(link).value).Success?
    requires AllWs(blank)
    ensures kept == Some(fetch(RequestedId(link).value).value)
    ensures card == None
  {
    var session := new Session();
    var outcome, requested := session.Submit(link, fetch);
    var loaded := fetch(RequestedId(link).value).value;
    assert session.current == Some(loaded);
    outcome, requested := session.Submit(blank, fetch);
    assert requested.None?;
    kept, card := session.current, session.card;
  }
}
