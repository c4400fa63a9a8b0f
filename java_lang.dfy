/**
  The few pieces of the Java platform whose behaviour the token service
  depends on: null references, exceptions, string conversion in `+`,
  `Date.after`, `String.substring` and `String.split`.
 */
module JavaLang {

  /** A reference that may be null (`None`), or a library call that may fail. */
  datatype Option<T> = None | Some(value: T)

  /** A Java `String` reference, which may be null. */
  type JString = Option<string>

  /** The exceptions the token service either catches or lets escape. */
  datatype Exception =
    | ParseException                   // java.text.ParseException, from the token library
    | NullPointerException
    | StringIndexOutOfBoundsException
    | JsonProcessingException          // the JSON reader met malformed text
    | HttpClientErrorException         // the token endpoint answered with a 4xx status
    | RestClientException              // any other failure of the POST (5xx, I/O)
    | IllegalArgumentException         // a POST to a URL without a scheme, or a null text given to the JSON reader

  /** How a Java call ends: it returns a value or it throws. */
  datatype Outcome<T> = Returned(value: T) | Threw(exception: Exception)

  /** `try { … } catch (E e) { … }` around a computation whose result
      variable started at `initial` and is only overwritten at its end. */
  function Catch<T>(o: Outcome<T>, caught: set<Exception>, initial: T): Outcome<T>
  {
    if o.Threw? && o.exception in caught then Returned(initial) else o
  }

  /** String conversion performed by `+` on strings: null prints as "null". */
  function Text(s: JString): (t: string)
    ensures s.Some? ==> t == s.value
    ensures s.None? ==> t == "null"
  {
    match s
    case None => "null"
    case Some(chars) => chars
  }

  /** `current.after(when)` on two instants, in one unit of time:
      strictly later; a null `when` throws. */
  function DateAfter(current: int, when: Option<int>): (r: Outcome<bool>)
    ensures r.Threw? <==> when.None?
    ensures r.Threw? ==> r.exception == NullPointerException
    ensures r.Returned? ==> (r.value <==> current > when.value)
  {
    match when
    case None => Threw(NullPointerException)
    case Some(instant) => Returned(current > instant)
  }

  /** `s.substring(begin, end)`: throws unless 0 <= begin <= end <= length. */
  function Substring(s: string, begin: int, end: int): (r: Outcome<string>)
    ensures r.Returned? <==> 0 <= begin <= end <= |s|
    ensures r.Threw? ==> r.exception == StringIndexOutOfBoundsException
    ensures r.Returned? ==> |r.value| == end - begin && r.value == s[begin..end]
  {
    if 0 <= begin <= end <= |s| then Returned(s[begin..end])
    else Threw(StringIndexOutOfBoundsException)
  }

  /** `s.substring(begin)`. */
  function SubstringFrom(s: string, begin: int): (r: Outcome<string>)
    ensures r.Returned? <==> 0 <= begin <= |s|
    ensures r.Threw? ==> r.exception == StringIndexOutOfBoundsException
    ensures r.Returned? ==> r.value == s[begin..]
  {
    Substring(s, begin, |s|)
  }
}
