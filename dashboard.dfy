/** `agrupar_mensajes` from `dashboard.py`: maps the three noisy error
    messages to one canonical text each so that the dashboard counts them
    together, and leaves every other value as it is. */
module Dashboard {
  import opened Text

  /** A cell of the `Mensaje` column: a string, or any other value pandas
      may hold there (a missing value, a number). */
  datatype Cell<T> = Str(text: string) | NonStr(value: T)

  const BadPassword: string := "Bad password for account"

  /** The long texts are written as a short head and the rest, so that
      their first characters can be read off directly. */
  const WebServicePrefix: string := "CBR_005_0458 : " + "WebService.Id(WSS) failed after"

  /** The canonical text of the WebService failures: the prefix followed by
      a fixed description. */
  const WebServiceGroup: string :=
    WebServicePrefix + " (X)ms with Exception : (System.Net.Http.HttpRequestException: Bad Request)"

  const RemoteError: string :=
    "Method " + "'Cegid.CBR.BasicWebRequestService.Invoke' - Exception - Remote service returned error"

  /** The three prefix tests, in order, first match wins. The result is
      one of the three canonical texts, or the value itself, which is what
      every non-string and every string with none of the prefixes gets. */
  function GroupMessage<T>(msg: Cell<T>): (r: Cell<T>)
    ensures r in {Str(BadPassword), Str(WebServiceGroup), Str(RemoteError), msg}
    ensures r != msg ==>
      msg.Str? &&
      (StartsWith(msg.text, BadPassword) || StartsWith(msg.text, WebServicePrefix) || StartsWith(msg.text, RemoteError))
  {
    if msg.Str? then
      if StartsWith(msg.text, BadPassword) then Str(BadPassword)
      else if StartsWith(msg.text, WebServicePrefix) then Str(WebServiceGroup)
      else if StartsWith(msg.text, RemoteError) then Str(RemoteError)
      else msg
    else msg
  }

  /** Each canonical text begins with its own prefix and with neither
      earlier one. */
  lemma CanonicalPrefixes()
    ensures StartsWith(BadPassword, BadPassword)
    ensures !StartsWith(WebServiceGroup, BadPassword) && StartsWith(WebServiceGroup, WebServicePrefix)
    ensures !StartsWith(RemoteError, BadPassword) && !StartsWith(RemoteError, WebServicePrefix)
    ensures StartsWith(RemoteError, RemoteError)
  {
    assert WebServiceGroup[0] == WebServicePrefix[0] == 'C' && BadPassword[0] == 'B';
    assert RemoteError[0] == 'M';
  }

  /** Grouping a grouped message changes nothing. */
  lemma GroupMessageIdempotent<T>(msg: Cell<T>)
    ensures GroupMessage(GroupMessage(msg)) == GroupMessage(msg)
  {
    CanonicalPrefixes();
  }

  /** Every message with one of the prefixes lands in the group of the first
      prefix it has. */
  lemma GroupOfPrefixed<T>(rest: string)
    ensures GroupMessage<T>(Str(BadPassword + rest)) == Str(BadPassword)
    ensures GroupMessage<T>(Str(WebServicePrefix + rest)) == Str(WebServiceGroup)
    ensures GroupMessage<T>(Str(RemoteError + rest)) == Str(RemoteError)
  {
    CanonicalPrefixes();
    assert (BadPassword + rest)[..|BadPassword|] == BadPassword;
    assert (WebServicePrefix + rest)[..|WebServicePrefix|] == WebServicePrefix;
    assert (WebServicePrefix + rest)[0] != BadPassword[0];
    assert (RemoteError + rest)[..|RemoteError|] == RemoteError;
    assert (RemoteError + rest)[0] != BadPassword[0] && (RemoteError + rest)[0] != WebServicePrefix[0];
  }
}
