/**
 * The persistent entities that carry no behaviour of their own: restaurants,
 * meals and cached weather forecasts. Calendar dates are epoch-day numbers
 * (days since 1970-01-01); floating-point quantities (price, temperature,
 * humidity, wind speed) are copied values and are modelled as reals.
 */
module Entities {

  /** A restaurant; `capacity` is the number of seats currently free. */
  datatype Restaurant = Restaurant(
    id: int,
    name: string,
    location: string,
    capacity: int,
    operatingHours: string)

  /** A meal served by the restaurant whose id is `restaurantId`. */
  datatype Meal = Meal(
    id: int,
    restaurantId: int,
    name: string,
    description: string,
    price: real,
    date: int,
    mealType: string)

  /** A weather forecast row, unique per (date, location). */
  datatype WeatherForecast = WeatherForecast(
    date: int,
    location: string,
    temperature: real,
    description: string,
    humidity: real,
    windSpeed: real,
    timestamp: int)
}
