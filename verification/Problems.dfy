// A problem reported by one of the dashboard's checks. Times are seconds since the epoch.
module Problems {
  import opened Wrappers

  datatype Problem = Problem(
    source: string, component: string, severity: string, message: string, timestamp: Option<real>)
}
