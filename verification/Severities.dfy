/** The four severities that every detector reports. */
module Severities {

  datatype Severity = Low | Medium | High | Critical

  function Rank(s: Severity): nat {
    match s case Low => 0 case Medium => 1 case High => 2 case Critical => 3
  }
}
