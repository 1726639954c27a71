/*
 * The collector and the dashboard each carry their own copy of the sensor
 * catalog; they must agree, or the dashboard would query series the
 * collector never writes, or scale a reading differently.
 */
module Catalogs {
  import Collector
  import App

  /** Entry by entry, the two catalogs name the same data point, scale and series. */
  lemma CatalogsAgree()
    ensures |Collector.DpsMap| == |App.DpsMap| == |App.VmMetrics|
    ensures forall k :: 0 <= k < |App.DpsMap| ==>
              && Collector.DpsMap[k].id == App.DpsMap[k].id
              && Collector.DpsMap[k].scale == App.DpsMap[k].scale
              && App.VmMetrics[k].column == App.DpsMap[k].column
              && App.VmMetrics[k].name == Collector.DpsMap[k].metric
  {
  }

  /** Every series the dashboard reads is written by the collector, from a data point it also shows live. */
  lemma EveryQueriedSeriesIsWritten()
    ensures forall m :: m in App.VmMetrics ==>
              exists k :: 0 <= k < |Collector.DpsMap| && Collector.DpsMap[k].metric == m.name
                          && App.DpsMap[k].column == m.column && App.DpsMap[k].id == Collector.DpsMap[k].id
  {
    CatalogsAgree();
    forall m | m in App.VmMetrics
      ensures exists k :: 0 <= k < |Collector.DpsMap| && Collector.DpsMap[k].metric == m.name
                          && App.DpsMap[k].column == m.column && App.DpsMap[k].id == Collector.DpsMap[k].id
    {
      var k :| 0 <= k < |App.VmMetrics| && App.VmMetrics[k] == m;
      assert Collector.DpsMap[k].metric == m.name;
    }
  }
}
