/**
 * The two linear maps that place one bar of the result chart: a weight on
 * the 0-10 scale becomes a bar height and a y-offset inside a chart 281
 * units tall (y grows downwards, so the bar is drawn from y to y + height).
 */
module Graph {

  /** Height of the chart in drawing units. */
  const ChartHeight: real := 281.0

  function Abs(x: real): (r: real)
    ensures r >= 0.0 && (r == x || r == -x)
  {
    if x < 0.0 then -x else x
  }

  /** The y-offset of the top of a bar for the given weight. */
  function YPosition(weight: real): (r: real)
    ensures r >= 0.0
  {
    Abs(ChartHeight - (weight * 10.0) / 100.0 * ChartHeight)
  }

  /** The height of a bar for the given weight. */
  function BarHeight(weight: real): (r: real)
    ensures r >= 0.0
  {
    Abs((weight * 10.0) / 100.0 * ChartHeight)
  }

  /** On the intended 0-10 scale a bar reaches exactly the baseline: offset and height add up to the chart height. */
  lemma Complementary(weight: real)
    requires 0.0 <= weight <= 10.0
    ensures YPosition(weight) + BarHeight(weight) == ChartHeight
    ensures BarHeight(weight) == weight / 10.0 * ChartHeight
  {
  }

  /** Offset and height add up to the chart height exactly on the 0-10 scale, and exceed it outside. */
  lemma ComplementaryOnlyInRange(weight: real)
    ensures YPosition(weight) + BarHeight(weight) == ChartHeight <==> 0.0 <= weight <= 10.0
    ensures YPosition(weight) + BarHeight(weight) >= ChartHeight
  {
  }

  /** Above the scale the absolute value flips the offset: it becomes height minus chart height. */
  lemma AboveScale(weight: real)
    requires weight >= 10.0
    ensures YPosition(weight) == BarHeight(weight) - ChartHeight
    ensures BarHeight(weight) >= ChartHeight
  {
  }

  /** On the 0-10 scale the bar fits the chart, grows with the weight and its top moves up. */
  lemma Monotone(v: real, w: real)
    requires 0.0 <= v <= w <= 10.0
    ensures BarHeight(v) <= BarHeight(w) <= ChartHeight
    ensures YPosition(w) <= YPosition(v)
  {
  }

  /** The chart's end points and the reference values y(4) = 168.6 and h(3) = 84.3. */
  lemma ReferenceValues()
    ensures BarHeight(0.0) == 0.0 && YPosition(0.0) == 281.0
    ensures BarHeight(10.0) == 281.0 && YPosition(10.0) == 0.0
    ensures YPosition(4.0) == 168.6
    ensures BarHeight(3.0) == 84.3
  {
  }
}
