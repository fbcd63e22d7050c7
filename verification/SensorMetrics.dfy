/** The metric registry (internal/sensor/metrics.go): the value columns of every sensor table. */
module SensorMetrics {
  const COLUMNS: set<string> := {
    "temperature_c", "humidity_percent", "battery_percent", "rssi_dbm", "pressure_hpa",
    "co2_ppm", "lux", "etvoc", "soil_moisture_percent", "conductivity_us_cm"}
}
