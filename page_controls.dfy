/** The two small decisions of the landing page: which way a touch swipe moves the
    Bootstrap carousel, and whether the contact form is accepted. */
module PageControls {
  /** Horizontal travel, in CSS pixels, a swipe needs before it counts. */
  const SWIPE_THRESHOLD: real := 50.0

  datatype Slide = Prev | Next | Stay

  function Abs(x: real): real {
    if x < 0.0 then -x else x
  }

  /** The `touchend` handler: the finger's travel is `endX - startX`. */
  function SwipeDecision(startX: real, endX: real): (r: Slide)
    ensures r == Prev <==> endX - startX > SWIPE_THRESHOLD
    ensures r == Next <==> endX - startX < -SWIPE_THRESHOLD
    ensures r == Stay <==> -SWIPE_THRESHOLD <= endX - startX <= SWIPE_THRESHOLD
  {
    var deltaX := endX - startX;
    if Abs(deltaX) > SWIPE_THRESHOLD then
      if deltaX > 0.0 then Prev else Next
    else Stay
  }

  /** Swiping the same distance the other way goes the other way. */
  lemma SwipeMirror(startX: real, endX: real)
    ensures SwipeDecision(endX, startX) == match SwipeDecision(startX, endX)
      case Prev => Next
      case Next => Prev
      case Stay => Stay
  {
  }

  datatype Severity = Error | Success

  /** What `showNotification` is called with. */
  datatype Notice = Notice(text: string, severity: Severity)

  /** The submit handler: the experience select is read but not required; any empty
      required field (`!name || !email || !message`) rejects the form. */
  function Submit(name: string, email: string, experience: string, message: string): (r: Notice)
    ensures r.severity == Error <==> name == [] || email == [] || message == []
    ensures r.severity == Success <==> name != [] && email != [] && message != []
  {
    if name == [] || email == [] || message == [] then
      Notice("Please fill in all required fields.", Error)
    else
      Notice("Thank you for your message! We will get back to you soon.", Success)
  }
}
