/**
 * The element configuration shared by all three scripts: the
 * `CORE_TRACKING_ELEMENTS` table of pick-stations.py, written out as the
 * `selected_elements` half of the selected-stations document and read back
 * by the aggregator and the anomaly picker.
 */
module Config {
  import opened Order

  /** One `selected_elements` entry: how the element is aggregated and over how many days. */
  datatype ElementSpec = ElementSpec(aggType: string, interval: int)

  const Average := "average"
  const Sum := "sum"
  const OrOp := "or_op"

  /** `CORE_TRACKING_ELEMENTS`. */
  const CoreTrackingElements: map<string, ElementSpec> := map[
    "AWND" := ElementSpec(Average, 7),
    "PRCP" := ElementSpec(Sum, 90),
    "SNOW" := ElementSpec(Sum, 90),
    "SNWD" := ElementSpec(Sum, 90),
    "TAVG" := ElementSpec(Average, 7),
    "TMAX" := ElementSpec(Average, 7),
    "TMIN" := ElementSpec(Average, 7),
    "WT08" := ElementSpec(OrOp, 7),
    "WT11" := ElementSpec(OrOp, 7)
  ]

  /** The table's keys in the order the table lists them (and JSON keeps). */
  const CoreCodes: seq<string> := ["AWND", "PRCP", "SNOW", "SNWD", "TAVG", "TMAX", "TMIN", "WT08", "WT11"]

  /** Every agg_type the table uses is one the classifier knows, and every interval is positive. */
  lemma CoreTableWellFormed()
    ensures forall e :: e in CoreTrackingElements ==>
      CoreTrackingElements[e].aggType in {Average, Sum, OrOp} && CoreTrackingElements[e].interval > 0
  {
  }

  /**
   * The table lists its codes in sorted order, so the column order the
   * aggregator writes (table order) is the column order the anomaly picker
   * reads (`sorted(selected_elements.keys())`).
   */
  lemma CoreCodesSorted()
    ensures CoreCodes == SortedStrings(CoreTrackingElements.Keys)
  {
    assert Less("AWND", "PRCP") && Less("PRCP", "SNOW") && Less("SNOW", "SNWD");
    assert Less("SNWD", "TAVG") && Less("TAVG", "TMAX") && Less("TMAX", "TMIN");
    assert Less("TMIN", "WT08") && Less("WT08", "WT11");
    AscendingFromNeighbours(CoreCodes);
    assert Lists(CoreCodes, CoreTrackingElements.Keys);
    SortedStringsUnique(CoreCodes, CoreTrackingElements.Keys);
  }
}
